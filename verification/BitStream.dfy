/** Sequences of bits, most significant first: what the Speex bit buffer stands for. */
module BitStream {
  import opened Arithmetic

  /** The n low bits of d. */
  function BitsOf(d: nat, n: nat): (b: seq<bool>)
    ensures |b| == n
  {
    if n == 0 then [] else [d / TwoTo(n - 1) % 2 == 1] + BitsOf(d, n - 1)
  }

  function ValueOf(b: seq<bool>): nat {
    if |b| == 0 then 0 else 2 * ValueOf(b[..|b| - 1]) + (if b[|b| - 1] then 1 else 0)
  }

  lemma ValueLast(b: seq<bool>, n: nat)
    requires |b| == n + 1
    ensures ValueOf(b) == 2 * ValueOf(b[..n]) + (if b[n] then 1 else 0)
    ensures TwoTo(|b|) == 2 * TwoTo(n)
  {}

  lemma {:induction false} ValueAppend(a: seq<bool>, b: seq<bool>)
    ensures ValueOf(a + b) == ValueOf(a) * TwoTo(|b|) + ValueOf(b)
  {
    if |b| == 0 {
      assert a + b == a;
    } else {
      hide ValueOf, TwoTo;
      var n := |b| - 1;
      ValueAppend(a, b[..n]);
      assert (a + b)[..|a| + n] == a + b[..n];
      ValueLast(a + b, |a| + n);
      ValueLast(b, n);
      Doubled(ValueOf(a), TwoTo(n));
    }
  }

  lemma Doubled(a: int, p: int)
    ensures 2 * (a * p) == a * (2 * p)
  {}

  lemma ValueOfOne(x: bool)
    ensures ValueOf([x]) == if x then 1 else 0
  {
    assert [x][..0] == [];
  }

  /** Reading back n packed bits gives the value modulo 2^n. */
  lemma {:induction false} ValueOfBits(d: nat, n: nat)
    ensures ValueOf(BitsOf(d, n)) == d % TwoTo(n)
  {
    if n > 0 {
      ValueOfBits(d, n - 1);
      var top := d / TwoTo(n - 1) % 2 == 1;
      ValueAppend([top], BitsOf(d, n - 1));
      ValueOfOne(top);
      DivModStep(d, TwoTo(n - 1));
    }
  }

  lemma {:induction false} ValueBound(b: seq<bool>)
    ensures ValueOf(b) < TwoTo(|b|)
  {
    if |b| > 0 { ValueBound(b[..|b| - 1]); }
  }

  // ---- fields ----

  datatype Field = Field(value: nat, width: nat)

  function Encode(fields: seq<Field>): seq<bool> {
    if |fields| == 0 then [] else BitsOf(fields[0].value, fields[0].width) + Encode(fields[1..])
  }

  function TotalWidth(fields: seq<Field>): nat {
    if |fields| == 0 then 0 else fields[0].width + TotalWidth(fields[1..])
  }

  /** Split a stream along the widths of the fields, and read each piece as a number. */
  function Decode(b: seq<bool>, fields: seq<Field>): (v: seq<nat>)
    requires TotalWidth(fields) <= |b|
    ensures |v| == |fields|
  {
    if |fields| == 0 then []
    else
      var w := fields[0].width;
      [ValueOf(b[..w])] + Decode(b[w..], fields[1..])
  }

  lemma {:induction false} EncodeLength(fields: seq<Field>)
    ensures |Encode(fields)| == TotalWidth(fields)
  {
    if |fields| > 0 { EncodeLength(fields[1..]); }
  }

  /** Whatever follows the encoded fields, every value comes back modulo its width. */
  lemma {:induction false} DecodeEncode(fields: seq<Field>, rest: seq<bool>)
    ensures TotalWidth(fields) <= |Encode(fields) + rest|
    ensures forall i :: 0 <= i < |fields| ==>
      Decode(Encode(fields) + rest, fields)[i] == fields[i].value % TwoTo(fields[i].width)
  {
    hide BitsOf, ValueOf, TwoTo;
    EncodeLength(fields);
    if |fields| > 0 {
      var b, w := Encode(fields) + rest, fields[0].width;
      DecodeEncode(fields[1..], rest);
      var first, others := BitsOf(fields[0].value, w), Encode(fields[1..]);
      assert b == first + (others + rest);
      assert b[..w] == first && b[w..] == others + rest;
      ValueOfBits(fields[0].value, w);
    }
  }

  lemma ConcatAssociative(x: seq<bool>, y: seq<bool>, z: seq<bool>)
    ensures x + (y + z) == (x + y) + z
  {}

  lemma EncodeStep(f: seq<Field>)
    requires |f| > 0
    ensures Encode(f) == BitsOf(f[0].value, f[0].width) + Encode(f[1..])
  {}

  lemma {:induction false} EncodeConcat(f: seq<Field>, g: seq<Field>)
    ensures Encode(f + g) == Encode(f) + Encode(g)
  {
    hide BitsOf;
    if |f| == 0 {
      assert f + g == g;
    } else {
      EncodeConcat(f[1..], g);
      EncodeStep(f);
      EncodeStep(f + g);
      hide Encode, BitsOf;
      assert (f + g)[1..] == f[1..] + g;
      ConcatAssociative(BitsOf(f[0].value, f[0].width), Encode(f[1..]), Encode(g));
    }
  }

  // ---- the terminator ----

  function Ones(n: nat): (t: seq<bool>)
    ensures |t| == n && forall i :: 0 <= i < n ==> t[i]
  {
    if n == 0 then [] else Ones(n - 1) + [true]
  }

  /** Nothing when aligned, else a zero and ones up to the next byte. */
  function Terminator(length: nat): (t: seq<bool>)
    ensures (length + |t|) % 8 == 0 && |t| < 8
  {
    if length % 8 == 0 then [] else [false] + Ones(7 - length % 8)
  }

  function Terminated(b: seq<bool>): (t: seq<bool>)
    ensures |t| == 8 * ((|b| + 7) / 8)
  {
    b + Terminator(|b|)
  }

  /** Emitting whole bytes first does not change the terminated stream. */
  lemma TerminatedSplits(emitted: seq<bool>, pending: seq<bool>)
    requires |emitted| % 8 == 0
    ensures Terminated(emitted + pending) == emitted + Terminated(pending)
  {
    assert (|emitted| + |pending|) % 8 == |pending| % 8;
    assert Terminator(|emitted + pending|) == Terminator(|pending|);
  }
}
