/** Whole sessions over Speex bit buffers: round trip, and streaming against one-shot use. */
module SpeexStreaming {
  import opened Arithmetic
  import opened BitStream
  import opened ByteBits
  import opened SpeexBuffer

  type Packed = f: Field | f.width <= 32 witness Field(0, 0)

  /** Pack every field and write everything. */
  method PackAll(fields: seq<Packed>) returns (bytes: seq<bv8>)
    ensures Bits(bytes) == Terminated(Encode(fields))
  {
    hide BitAt, Bits, Terminated, BitsOf, Encode, Over, Clear, LeftOver, AheadOf;
    var writer := new SpeexBits();
    NothingYet();
    for i := 0 to |fields|
      invariant writer.Writing() && fresh(writer) && fresh(writer.chars)
      invariant writer.Stream() == Encode(fields[..i])
    {
      writer.Pack(fields[i].value, fields[i].width);
      EncodeAppend(fields[..i], fields[i]);
      assert fields[..i + 1] == fields[..i] + [fields[i]];
    }
    assert fields[..|fields|] == fields;
    ghost var stream := writer.Stream();
    bytes := writer.Write(writer.ByteCount());
    AllWritten(stream, bytes);
  }

  /** Read bytes into another buffer and unpack the widths of the fields. */
  method UnpackAll(bytes: seq<bv8>, fields: seq<Packed>) returns (values: seq<nat>)
    requires TotalWidth(fields) <= 8 * |bytes|
    ensures values == Decode(Bits(bytes), fields)
  {
    hide BitAt, Bits, ValueOf, TwoTo, Decode, TotalWidth;
    var reader := new SpeexBits();
    reader.ReadFrom(bytes);
    values := [];
    assert fields[0..] == fields;
    for i := 0 to |fields|
      invariant |values| == i && reader.Reading() && !reader.overflow && fresh(reader)
      invariant TotalWidth(fields[i..]) <= |reader.Unread()|
      invariant Decode(Bits(bytes), fields) == values + Decode(reader.Unread(), fields[i..])
    {
      assert fields[i..][0] == fields[i] && fields[i..][1..] == fields[i + 1..];
      DecodeStep(reader.Unread(), fields[i..]);
      var v := reader.UnpackUnsigned(fields[i].width);
      values := values + [v];
    }
    assert |Decode(reader.Unread(), fields[|fields|..])| == 0;
  }

  /** Packing, writing with enough room, reading elsewhere, unpacking: each value modulo its width. */
  method RoundTrip(fields: seq<Packed>) returns (values: seq<nat>)
    ensures |values| == |fields|
    ensures forall i :: 0 <= i < |fields| ==> values[i] == fields[i].value % TwoTo(fields[i].width)
  {
    hide Bits, Decode, Encode, TwoTo;
    var bytes := PackAll(fields);
    EncodeLength(fields);
    DecodeEncode(fields, Terminator(|Encode(fields)|));
    values := UnpackAll(bytes, fields);
  }

  /**
   Packing after a write: the data is appended exactly when it fits what the write left over; `intact`
   is whether it was.
   */
  method PackAfterWrite(buffer: SpeexBits, max: nat, data: nat, n: nat) returns (output: seq<bv8>, intact: bool)
    requires buffer.Writing() && n <= 32
    modifies buffer, buffer.chars
    ensures buffer.Open()
    ensures buffer.Stream() == old(buffer.Stream()) + Over(BitsOf(data, n), LeftOver(|old(buffer.Stream())|))
    ensures intact <==> buffer.Stream() == old(buffer.Stream()) + BitsOf(data, n)
    ensures intact <==> FitsLeftOver(|old(buffer.Stream())|, BitsOf(data, n))
  {
    hide BitAt, Bits, BitsOf, Terminated, LeftOver, Over;
    ghost var start := buffer.Stream();
    output := buffer.Write(max);
    OverLeftOver(|start|, BitsOf(data, n));
    SameAppended(start, Over(BitsOf(data, n), LeftOver(|start|)), BitsOf(data, n));
    intact := FitsLeftOver(buffer.nbBits, BitsOf(data, n));
    buffer.Pack(data, n);
  }

  lemma SameAppended(s: seq<bool>, a: seq<bool>, b: seq<bool>)
    ensures s + a == s + b <==> a == b
  {
    assert (s + a)[|s|..] == a && (s + b)[|s|..] == b;
  }

  lemma EncodeAppend(f: seq<Field>, g: Field)
    ensures Encode(f + [g]) == Encode(f) + BitsOf(g.value, g.width)
  {
    EncodeConcat(f, [g]);
    assert [g][1..] == [];
    assert Encode([g]) == BitsOf(g.value, g.width) + Encode([]);
  }

  lemma AllWritten(stream: seq<bool>, bytes: seq<bv8>)
    requires var all := Terminated(stream);
      8 * |bytes| <= |all| && Bits(bytes) == all[..8 * |bytes|] && (|stream| + 7) / 8 <= |bytes|
    ensures Bits(bytes) == Terminated(stream)
    ensures Terminated(stream) == stream + Terminator(|stream|)
  {
    hide Bits;
  }

  lemma DecodeStep(b: seq<bool>, fields: seq<Field>)
    requires |fields| > 0 && TotalWidth(fields) <= |b|
    ensures fields[0].width <= |b| && TotalWidth(fields[1..]) <= |b[fields[0].width..]|
    ensures Decode(b, fields) == [ValueOf(b[..fields[0].width])] + Decode(b[fields[0].width..], fields[1..])
  {}

  // ---- streaming out ----

  datatype WriterOp = PackField(field: Packed) | EmitBytes

  function FieldsOf(ops: seq<WriterOp>): seq<Field> {
    if |ops| == 0 then []
    else FieldsOf(ops[..|ops| - 1]) + (match ops[|ops| - 1] case PackField(f) => [f] case EmitBytes => [])
  }

  function OpBits(op: WriterOp): seq<bool> {
    match op
    case PackField(f) => BitsOf(f.value, f.width)
    case EmitBytes => []
  }

  lemma FieldsStep(ops: seq<WriterOp>, i: nat)
    requires i < |ops|
    ensures Encode(FieldsOf(ops[..i + 1])) == Encode(FieldsOf(ops[..i])) + OpBits(ops[i])
  {
    hide BitsOf;
    assert ops[..i + 1][..i] == ops[..i];
    match ops[i] {
      case PackField(f) => EncodeAppend(FieldsOf(ops[..i]), f);
      case EmitBytes => assert FieldsOf(ops[..i]) + [] == FieldsOf(ops[..i]);
    }
  }

  method StreamStep(buffer: SpeexBits, op: WriterOp, bytes: seq<bv8>) returns (sent: seq<bv8>)
    requires buffer.Writing()
    modifies buffer, buffer.chars
    ensures buffer.Writing() && (buffer.chars == old(buffer.chars) || fresh(buffer.chars))
    ensures Bits(sent) + buffer.Stream() == (Bits(bytes) + old(buffer.Stream())) + OpBits(op)
  {
    hide BitAt, Bits, BitsOf;
    ghost var pending := buffer.Stream();
    match op {
      case PackField(f) =>
        buffer.Pack(f.value, f.width);
        ConcatAssociative(Bits(bytes), pending, BitsOf(f.value, f.width));
        sent := bytes;
      case EmitBytes =>
        var more := buffer.WriteWholeBytes(buffer.ByteCount());
        BitsConcat(bytes, more);
        ConcatAssociative(Bits(bytes), Bits(more), buffer.Stream());
        assert (Bits(bytes) + pending) + [] == Bits(bytes) + pending;
        sent := bytes + more;
    }
  }

  /**
   Any interleaving of packing and emitting whole bytes, closed by a write, produces the byte stream
   of packing everything and writing once.
   */
  method StreamOut(ops: seq<WriterOp>) returns (bytes: seq<bv8>)
    ensures Bits(bytes) == Terminated(Encode(FieldsOf(ops)))
  {
    hide BitAt, Bits, Terminated, BitsOf, Encode, FieldsOf, OpBits;
    var buffer := new SpeexBits();
    bytes := [];
    NothingYet();
    for i := 0 to |ops|
      invariant buffer.Writing() && fresh(buffer) && fresh(buffer.chars)
      invariant Bits(bytes) + buffer.Stream() == Encode(FieldsOf(ops[..i]))
    {
      FieldsStep(ops, i);
      bytes := StreamStep(buffer, ops[i], bytes);
    }
    assert ops[..|ops|] == ops;
    ghost var pending := buffer.Stream();
    var last := buffer.Write(buffer.ByteCount());
    AllWritten(pending, last);
    BitsConcat(bytes, last);
    TerminatedSplits(Bits(bytes), pending);
    bytes := bytes + last;
  }

  lemma NothingYet()
    ensures Bits([]) == [] && FieldsOf([]) == [] && Encode([]) == []
  {}

  /** Equal bits mean equal bytes, so the byte streams themselves agree. */
  lemma {:induction false} BitsInjective(a: seq<bv8>, b: seq<bv8>)
    requires Bits(a) == Bits(b)
    ensures a == b
  {
    assert |a| == |b|;
    forall i | 0 <= i < |a|
      ensures a[i] == b[i]
    {
      forall k | 0 <= k < 8
        ensures BitAt(a[i], k) == BitAt(b[i], k)
      {
        assert Bits(a)[8 * i + k] == Bits(b)[8 * i + k];
        assert (8 * i + k) / 8 == i && (8 * i + k) % 8 == k;
      }
      SameBits(a[i], b[i]);
    }
  }

  lemma SameBits(x: bv8, y: bv8)
    requires forall k :: 0 <= k < 8 ==> BitAt(x, k) == BitAt(y, k)
    ensures x == y
  {
    assert BitAt(x, 0) == BitAt(y, 0) && BitAt(x, 1) == BitAt(y, 1) && BitAt(x, 2) == BitAt(y, 2);
    assert BitAt(x, 3) == BitAt(y, 3) && BitAt(x, 4) == BitAt(y, 4) && BitAt(x, 5) == BitAt(y, 5);
    assert BitAt(x, 6) == BitAt(y, 6) && BitAt(x, 7) == BitAt(y, 7);
  }

  lemma OneShotStep(op: WriterOp)
    ensures OpBits(op) == match op case PackField(f) => BitsOf(f.value, f.width) case EmitBytes => []
  {}

  /** Streaming out against the one-shot writer, byte for byte. */
  method StreamOutEqualsOneShot(ops: seq<WriterOp>) returns (streamed: seq<bv8>, oneShot: seq<bv8>)
    ensures streamed == oneShot && Bits(streamed) == Terminated(Encode(FieldsOf(ops)))
  {
    hide BitAt, Bits, Terminated, BitsOf, Encode, FieldsOf, OpBits;
    streamed := StreamOut(ops);
    var buffer := new SpeexBits();
    NothingYet();
    for i := 0 to |ops|
      invariant buffer.Writing() && fresh(buffer) && fresh(buffer.chars)
      invariant buffer.Stream() == Encode(FieldsOf(ops[..i]))
    {
      FieldsStep(ops, i);
      OneShotStep(ops[i]);
      match ops[i] {
        case PackField(f) => buffer.Pack(f.value, f.width);
        case EmitBytes =>
      }
    }
    assert ops[..|ops|] == ops;
    ghost var stream := buffer.Stream();
    oneShot := buffer.Write(buffer.ByteCount());
    AllWritten(stream, oneShot);
    BitsInjective(streamed, oneShot);
  }

  // ---- streaming in ----

  datatype ReaderOp = UnpackBits(width: nat) | FeedBytes(bytes: seq<bv8>)

  /** Everything fed, in order. */
  function InputOf(ops: seq<ReaderOp>): seq<bool> {
    if |ops| == 0 then []
    else (match ops[0] case UnpackBits(_) => [] case FeedBytes(b) => Bits(b)) + InputOf(ops[1..])
  }

  /** The widths asked for, as fields. */
  function WidthsOf(ops: seq<ReaderOp>): seq<Field> {
    if |ops| == 0 then []
    else (match ops[0] case UnpackBits(n) => [Field(0, n)] case FeedBytes(_) => []) + WidthsOf(ops[1..])
  }

  /** Every unpacking asks for no more than what has been fed and not yet read. */
  predicate Timely(ops: seq<ReaderOp>, available: nat) {
    |ops| == 0
    || match ops[0]
       case UnpackBits(n) => n <= available && Timely(ops[1..], available - n)
       case FeedBytes(b) => Timely(ops[1..], available + 8 * |b|)
  }

  /** What reading in one go from `unread` followed by all later input gives: the reference. */
  predicate ReadsAs(values: seq<nat>, unread: seq<bool>, ops: seq<ReaderOp>) {
    var all, widths := unread + InputOf(ops), WidthsOf(ops);
    |values| <= |widths| && TotalWidth(widths[..|values|]) <= |all| && values == Decode(all, widths[..|values|])
  }

  /**
   Any interleaving of unpacking and feeding whole bytes reads the same values as unpacking from the
   concatenated input, up to the first overflow; and it overflows exactly when some request comes
   before its bits.
   */
  method {:induction false} StreamIn(reader: SpeexBits, ops: seq<ReaderOp>) returns (values: seq<nat>)
    requires reader.Reading() && reader.nbBits % 8 == 0 && !reader.overflow
    requires forall i :: 0 <= i < |ops| && ops[i].UnpackBits? ==> ops[i].width <= 32
    modifies reader, reader.chars
    ensures ReadsAs(values, old(reader.Unread()), ops)
    ensures reader.overflow <==> !Timely(ops, |old(reader.Unread())|)
    ensures !reader.overflow ==> |values| == |WidthsOf(ops)|
    decreases |ops|
  {
    hide BitAt, Bits, TwoTo, ValueOf, Decode, TotalWidth;
    if |ops| == 0 {
      NothingRead(reader.Unread(), ops);
      values := [];
      return;
    }
    ghost var unread := reader.Unread();
    match ops[0] {
      case FeedBytes(b) =>
        reader.ReadWholeBytes(b);
        values := StreamIn(reader, ops[1..]);
        FeedingKeepsValues(values, unread, b, ops);
      case UnpackBits(n) =>
        var v := reader.UnpackUnsigned(n);
        if reader.overflow {
          NothingRead(unread, ops);
          values := [];
          return;
        }
        var rest := StreamIn(reader, ops[1..]);
        values := [v] + rest;
        OneMoreValue(v, rest, unread, n, ops);
    }
  }

  lemma NothingRead(unread: seq<bool>, ops: seq<ReaderOp>)
    ensures ReadsAs([], unread, ops)
  {
    assert WidthsOf(ops)[..0] == [];
  }

  lemma FeedingKeepsValues(values: seq<nat>, unread: seq<bool>, b: seq<bv8>, ops: seq<ReaderOp>)
    requires |ops| > 0 && ops[0] == FeedBytes(b) && ReadsAs(values, unread + Bits(b), ops[1..])
    ensures ReadsAs(values, unread, ops) && |WidthsOf(ops)| == |WidthsOf(ops[1..])|
  {
    hide Bits, BitAt, Decode, TotalWidth;
    assert (unread + Bits(b)) + InputOf(ops[1..]) == unread + InputOf(ops);
    assert WidthsOf(ops) == WidthsOf(ops[1..]);
  }

  lemma OneMoreValue(v: nat, rest: seq<nat>, unread: seq<bool>, n: nat, ops: seq<ReaderOp>)
    requires |ops| > 0 && ops[0] == UnpackBits(n) && n <= |unread| && v == ValueOf(unread[..n])
    requires ReadsAs(rest, unread[n..], ops[1..])
    ensures ReadsAs([v] + rest, unread, ops)
  {
    hide Bits, BitAt, ValueOf, Decode;
    var all, widths := unread + InputOf(ops), WidthsOf(ops);
    assert InputOf(ops) == InputOf(ops[1..]);
    assert all[..n] == unread[..n] && all[n..] == unread[n..] + InputOf(ops[1..]);
    var now := widths[..|rest| + 1];
    assert widths == [Field(0, n)] + WidthsOf(ops[1..]);
    assert now[0] == Field(0, n) && now[1..] == WidthsOf(ops[1..])[..|rest|];
    assert TotalWidth(now) == n + TotalWidth(now[1..]);
    DecodeStep(all, now);
  }
}
