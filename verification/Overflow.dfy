/**
  Inputs on which the generated codec (types/types.pb.go) runs past the largest int: the witnesses
  of the exceptions that modules Bounds and Codec delimit. Each ends in a key that claims more
  bytes than follow.
 */
module Overflow {
  import opened Machine
  import opened Varints
  import opened Wire
  import opened Grammar
  import opened Bounds
  import opened Codec

  const HALF: nat := 0x4000_0000_0000_0000

  /** Tag and length of a key, and none of its bytes. */
  function KeyClaim(length: nat): (d: Bytes)
    requires length <= MAX_INT
    ensures 1 <= |d| <= 11
  {
    VarintRoundTrip(length, []);
    [KEY_TAG] + VarintBytes(length)
  }

  lemma OneByte(b: Byte)
    requires b < 128
    ensures IsVarint([b]) && Value([b]) == b
  {
    assert Digits([b][1..]) == 0;
  }

  lemma {:induction false} VarintLength(v: nat, n: nat)
    requires n >= 1 && Pow2(7 * n - 7) <= v < Pow2(7 * n)
    ensures |VarintBytes(v)| == n
  {
    assert Pow2(7) == 128;
    if n > 1 {
      Pow2Add(7, 7 * n - 7);
      Pow2Add(7, 7 * n - 14);
      VarintLength(v / 128, n - 1);
    }
  }

  lemma LongVarint(v: nat)
    requires 0x100_0000_0000_0000 <= v <= MAX_INT
    ensures |VarintBytes(v)| == 9
  {
    hide VarintBytes;
    Pow2Of64();
    Pow2Add(8, 56);
    Pow2Add(1, 63);
    assert Pow2(8) == 256 && Pow2(1) == 2;
    VarintLength(v, 9);
  }

  lemma KeyClaimReaches(length: nat)
    requires 0x100_0000_0000_0000 <= length <= MAX_INT
    ensures var d := KeyClaim(length);
            |d| == 10 && Reach(d) == 10 + length && DeclaredLength(d) == length
  {
    hide VarintBytes, ReadVarint;
    var d := KeyClaim(length);
    LongVarint(length);
    VarintRoundTrip(length, []);
    assert VarintBytes(length) + [] == d[1..];
    OneByte(KEY_TAG);
    ReadVarintFront([KEY_TAG], VarintBytes(length));
    assert FieldReach(d) == 10 + length;
  }

  /** The shortest way to a panic: a key that claims MAX_INT bytes. */
  lemma PanicWitness(m: Message)
    ensures Decode(KeyClaim(MAX_INT), 0, m).outcome == Panicked
  {
    hide Decode, Reach, DeclaredLength, KeyClaim;
    KeyClaimReaches(MAX_INT);
    DecodePanicsExactly(KeyClaim(MAX_INT), 0, m);
  }

  /** An unknown field of two bytes: number 2, value 0. */
  const FILLER := Number([0x10], [0x00])

  lemma FillerIsUnknown()
    ensures IsUnknown(FILLER) && Encoding(FILLER) == [0x10, 0x00]
  {
    OneByte(0x10);
    OneByte(0x00);
  }

  const LONG: nat := MAX_INT - 10

  /** A key that ends at MAX_INT on its own ends beyond it behind two bytes of another message. */
  lemma ConcatenationFails(m: Message)
    ensures var x, y := [0x10, 0x00], KeyClaim(LONG);
            && Decode(x, 0, m) == Decoding(Done, m)
            && Decode(y, 0, m).outcome == Failed(UnexpectedEOF)
            && Decode(x + y, 0, m).outcome == Panicked
  {
    hide Decode, Reach, DeclaredLength, KeyClaim, IsUnknown, Encoding;
    var x, y := [0x10, 0x00], KeyClaim(LONG);
    FillerIsUnknown();
    UnknownFieldIsIgnored(FILLER, [], 0, m);
    assert x + [] == x;
    assert Decode(x, 0, m) == Decoding(Done, m) by { DecodesNothing(2, m); }
    KeyClaimReaches(LONG);
    DecodingConcatenation(x, y, m);
  }

  lemma DecodesNothing(base: nat, m: Message)
    requires base <= MAX_INT
    ensures Decode([], base, m) == Decoding(Done, m)
  {
  }

  /** The same key behind an unknown field that is inserted in front of it. */
  lemma TransparencyFails(m: Message)
    ensures var y := KeyClaim(LONG);
            && IsUnknown(FILLER)
            && Decode([] + y, 0, m).outcome == Failed(UnexpectedEOF)
            && Decode([] + (Encoding(FILLER) + y), 0, m).outcome == Panicked
  {
    hide Decode, Reach, DeclaredLength, KeyClaim, IsUnknown, Encoding;
    var y := KeyClaim(LONG);
    ConcatenationFails(m);
    FillerIsUnknown();
    assert [] + y == y && [] + (Encoding(FILLER) + y) == [0x10, 0x00] + y;
  }

  // ---------------------------------------------------------------- both bounds at 2^62

  /** An unknown string of number 2 and so many bytes that a key claim of ten bytes fills 2^62. */
  function Padding(): (f: Field)
    ensures |Encoding(f)| < HALF
  {
    VarintRoundTrip(HALF - 20, []);
    Delimited([0x12], VarintBytes(HALF - 20), seq(HALF - 20, _ => 0))
  }

  lemma PaddingIsUnknown()
    ensures IsUnknown(Padding()) && |Encoding(Padding())| == HALF - 10
  {
    hide VarintBytes, IsVarint, Value, Encoding;
    VarintRoundTrip(HALF - 20, []);
    OneByte(0x12);
    PaddingLength();
  }

  lemma PaddingLength()
    ensures |Encoding(Padding())| == HALF - 10
  {
    hide VarintBytes;
    LongVarint(HALF - 20);
  }

  lemma DelimitedReads(f: Field, rest: Bytes)
    requires f.Delimited? && IsVarint(f.tag) && IsVarint(f.length) && WireType(Value(f.tag)) == 2
    ensures var d := Encoding(f) + rest;
            ReadVarint(d) == Good(Value(f.tag), |f.tag|)
            && (Value(f.length) <= MAX_INT ==> LeafLength(d) == Value(f.length))
  {
    hide ReadVarint, IsVarint, Value;
    var d, i := Encoding(f) + rest, |f.tag|;
    assert d == f.tag + (f.length + (f.body + rest)) && d[i..] == f.length + (f.body + rest);
    ReadVarintFront(f.tag, d[i..]);
    ReadVarintFront(f.length, f.body + rest);
  }

  lemma PaddingReads(rest: Bytes)
    ensures var d := Encoding(Padding()) + rest; ReadVarint(d) == Good(0x12, 1) && LeafLength(d) == HALF - 20
  {
    hide VarintBytes, ReadVarint, IsVarint, Value, LeafLength, Encoding;
    VarintRoundTrip(HALF - 20, []);
    OneByte(0x12);
    DelimitedReads(Padding(), rest);
  }

  /** With input and declared lengths both at 2^62 the code can still panic. */
  lemma PanicAtHalf(m: Message)
    ensures var d := Encoding(Padding()) + KeyClaim(HALF);
            |d| == HALF && DeclaredLength(d) == HALF && Decode(d, 0, m).outcome == Panicked
  {
    hide Decode, Reach, KeyClaim, Padding, IsUnknown, Encoding, ReadVarint, LeafLength, Skip, Legal, WellFormed;
    var pad, claim := Encoding(Padding()), KeyClaim(HALF);
    var d := pad + claim;
    PaddingIsUnknown();
    PaddingReads(KeyClaim(HALF));
    KeyClaimReaches(HALF);
    UnknownFieldIsIgnored(Padding(), claim, 0, m);
    DecodePanicsExactly(claim, |pad|, m);
    PaddingReach();
    assert d[|pad|..] == claim;
  }

  lemma PaddingReach()
    ensures FieldReach(Encoding(Padding()) + KeyClaim(HALF)) == HALF - 10
  {
    hide KeyClaim, ReadVarint, Encoding, Padding, Skip;
    PaddingIsUnknown();
    PaddingReads(KeyClaim(HALF));
    KeyClaimReaches(HALF);
    SkipsField(Padding(), KeyClaim(HALF));
  }
}
