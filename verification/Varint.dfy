/**
  Base 128 varints (types/types.pb.go): the loops that write, measure and read them, and what
  they mean. A varint is one to ten bytes, all but the last with the high bit set; its value is
  the little-endian base 128 number of its digits, modulo 2^64.
 */
module Varints {
  import opened Machine

  datatype Error =
    | UnexpectedEOF
    | IntOverflow
    | InvalidLength
    | IllegalWireType
    | EndGroupOutsideGroup
    | IllegalTag
    | WrongWireType

  /** Outcome of reading one varint: its value and the bytes it took, or an error. */
  datatype Read = Good(value: nat, size: nat) | Bad(error: Error)

  const MAX_VARINT: nat := 10

  predicate IsVarint(bs: Bytes) {
    && 1 <= |bs| <= MAX_VARINT
    && bs[|bs| - 1] < 128
    && forall i | 0 <= i < |bs| - 1 :: bs[i] >= 128
  }

  /** The base 128 number whose digits, least significant first, are the low seven bits of bs. */
  function Digits(bs: Bytes): (v: nat) {
    if bs == [] then 0 else bs[0] % 128 + 128 * Digits(bs[1..])
  }

  function Value(bs: Bytes): (v: nat)
    ensures v < TWO_64
  {
    Digits(bs) % TWO_64
  }

  /** What encodeVarintTypes writes for v. */
  function VarintBytes(v: nat): (bs: Bytes)
    ensures |bs| >= 1
  {
    if v < 128 then [v] else [v % 128 + 128] + VarintBytes(v / 128)
  }

  /**
    Reads the varint at the front of d, of which `used` bytes were read before: running out of
    digits is noticed before running out of input.
   */
  function Scan(d: Bytes, used: nat): (r: Read)
    requires used <= MAX_VARINT
    ensures r.Good? ==> 1 <= r.size <= |d|
    decreases MAX_VARINT - used
  {
    if used == MAX_VARINT then Bad(IntOverflow)
    else if d == [] then Bad(UnexpectedEOF)
    else if d[0] < 128 then Good(0, 1)
    else
      match Scan(d[1..], used + 1)
      case Good(_, n) => Good(0, n + 1)
      case Bad(e) => Bad(e)
  }

  function ReadVarint(d: Bytes): (r: Read)
    ensures r.Good? ==> 1 <= r.size <= |d| && r.value < TWO_64
  {
    match Scan(d, 0)
    case Good(_, n) => Good(Value(d[..n]), n)
    case Bad(e) => Bad(e)
  }

  // ---------------------------------------------------------------- what reading accepts

  lemma {:induction false} ScanFinds(bs: Bytes, rest: Bytes, used: nat)
    requires used < MAX_VARINT && 1 <= |bs| <= MAX_VARINT - used
    requires bs[|bs| - 1] < 128 && forall i | 0 <= i < |bs| - 1 :: bs[i] >= 128
    ensures Scan(bs + rest, used) == Good(0, |bs|)
    decreases |bs|
  {
    if |bs| > 1 {
      assert (bs + rest)[1..] == bs[1..] + rest;
      ScanFinds(bs[1..], rest, used + 1);
    }
  }

  lemma {:induction false} ScanYieldsVarint(d: Bytes, used: nat)
    requires used <= MAX_VARINT && Scan(d, used).Good?
    ensures var n := Scan(d, used).size;
            n <= MAX_VARINT - used && d[n - 1] < 128 && forall i | 0 <= i < n - 1 :: d[i] >= 128
    ensures Scan(d, used).value == 0
    decreases MAX_VARINT - used
  {
    if d[0] >= 128 {
      ScanYieldsVarint(d[1..], used + 1);
      var n := Scan(d, used).size;
      forall i | 0 <= i < n - 1 ensures d[i] >= 128 {
        if i > 0 { assert d[i] == d[1..][i - 1]; }
      }
      assert d[n - 1] == d[1..][n - 2];
    }
  }

  /** Input without a last digit: the tenth digit overflows the word, otherwise the input is short. */
  lemma {:induction false} ScanRunsOut(d: Bytes, used: nat)
    requires used <= MAX_VARINT
    requires forall i | 0 <= i < |d| && i < MAX_VARINT - used :: d[i] >= 128
    ensures Scan(d, used) == Bad(if |d| >= MAX_VARINT - used then IntOverflow else UnexpectedEOF)
    decreases MAX_VARINT - used
  {
    if used < MAX_VARINT && d != [] {
      ScanRunsOut(d[1..], used + 1);
    }
  }

  /** Reading succeeds exactly on inputs that start with a varint, and takes just that varint. */
  lemma ReadVarintExact(d: Bytes, n: nat)
    ensures (ReadVarint(d).Good? && ReadVarint(d).size == n) <==> (n <= |d| && IsVarint(d[..n]))
    ensures n <= |d| && IsVarint(d[..n]) ==> ReadVarint(d) == Good(Value(d[..n]), n)
  {
    if n <= |d| && IsVarint(d[..n]) {
      assert d == d[..n] + d[n..];
      ScanFinds(d[..n], d[n..], 0);
    } else if ReadVarint(d).Good? {
      ScanYieldsVarint(d, 0);
    }
  }

  /** A varint that was read in full is read alike when more input follows. */
  lemma ReadVarintStable(d: Bytes, more: Bytes)
    requires ReadVarint(d).Good?
    ensures ReadVarint(d + more) == ReadVarint(d)
  {
    var n := ReadVarint(d).size;
    ReadVarintExact(d, n);
    assert (d + more)[..n] == d[..n];
    ReadVarintExact(d + more, n);
  }

  lemma ReadVarintFront(bs: Bytes, rest: Bytes)
    requires IsVarint(bs)
    ensures ReadVarint(bs + rest) == Good(Value(bs), |bs|)
  {
    assert (bs + rest)[..|bs|] == bs;
    ReadVarintExact(bs + rest, |bs|);
  }

  // ---------------------------------------------------------------- writing and reading back

  lemma {:induction false} VarintBytesShape(v: nat, n: nat)
    requires 1 <= n && v < Pow2(7 * n)
    ensures var bs := VarintBytes(v);
            |bs| <= n && Digits(bs) == v && bs[|bs| - 1] < 128 && forall i | 0 <= i < |bs| - 1 :: bs[i] >= 128
    decreases n
  {
    if v >= 128 {
      Pow2Add(7, 7 * (n - 1));
      assert Pow2(7) == 128;
      assert n > 1;
      assert v / 128 < Pow2(7 * (n - 1));
      VarintBytesShape(v / 128, n - 1);
      assert VarintBytes(v)[1..] == VarintBytes(v / 128);
    }
  }

  /** Every 64-bit word is written as a varint of at most ten bytes that reads back as the word. */
  lemma VarintRoundTrip(v: nat, rest: Bytes)
    requires v < TWO_64
    ensures IsVarint(VarintBytes(v)) && Value(VarintBytes(v)) == v
    ensures ReadVarint(VarintBytes(v) + rest) == Good(v, |VarintBytes(v)|)
  {
    hide VarintBytes, Digits, ReadVarint;
    Pow2Of64();
    Pow2Add(64, 6);
    assert Pow2(6) == 64;
    VarintBytesShape(v, MAX_VARINT);
    ReadVarintFront(VarintBytes(v), rest);
  }

  /** No varint of the same value is shorter. */
  lemma VarintIsShortest(bs: Bytes)
    requires IsVarint(bs)
    ensures |VarintBytes(Value(bs))| <= |bs|
  {
    hide VarintBytes, Digits, Pow2;
    if |bs| < MAX_VARINT {
      DigitsFit(bs);
      DigitsAppend(bs, 0);
      VarintBytesShape(Value(bs), |bs|);
    } else {
      VarintRoundTrip(Value(bs), []);
    }
  }

  // ---------------------------------------------------------------- the loops

  /** encodeVarintTypes: fills buf from offset and returns the position after the varint. */
  method EncodeVarint(buf: array<Byte>, offset: nat, v: nat) returns (end: nat)
    requires v < TWO_64
    requires offset + |VarintBytes(v)| <= buf.Length
    modifies buf
    ensures end == offset + |VarintBytes(v)|
    ensures buf[..] == old(buf[..offset]) + VarintBytes(v) + old(buf[end..])
  {
    hide Or, VarintBytes, Written;
    var i, x: nat := offset, v;
    ghost var original, written: Bytes := buf[..], [];
    WriteNothing(original, offset);
    while x >= 128
      invariant i == offset + |written| && x < TWO_64
      invariant written + VarintBytes(x) == VarintBytes(v)
      invariant Written(original, offset, written, buf[..])
    {
      ghost var before, digit: Byte := buf[..], x % 128 + 128;
      OrTop(x % 128);
      NextDigit(written, x);
      buf[i] := Or(x % 128, 128);
      assert buf[..] == before[i := digit];
      WriteOneMore(original, offset, written, before, digit);
      written := written + [digit];
      x := x / 128;
      i := i + 1;
    }
    ghost var before, last: Byte := buf[..], x;
    LastDigit(x);
    buf[i] := x;
    assert buf[..] == before[i := last];
    WriteOneMore(original, offset, written, before, last);
    end := i + 1;
    WrittenBytes(original, offset, VarintBytes(v), buf[..]);
  }

  lemma NextDigit(written: Bytes, x: nat)
    requires x >= 128
    ensures written + VarintBytes(x) == (written + [x % 128 + 128]) + VarintBytes(x / 128)
  {
  }

  lemma LastDigit(x: nat)
    requires x < 128
    ensures VarintBytes(x) == [x]
  {
  }

  /** The bytes s are the original ones but for those written from offset on. */
  predicate Written(original: Bytes, offset: nat, written: Bytes, s: Bytes) {
    offset + |written| <= |original| == |s| && s == original[..offset] + written + original[offset + |written|..]
  }

  lemma WriteNothing(original: Bytes, offset: nat)
    requires offset <= |original|
    ensures Written(original, offset, [], original)
  {
  }

  lemma WrittenBytes(original: Bytes, offset: nat, written: Bytes, s: Bytes)
    requires Written(original, offset, written, s)
    ensures offset + |written| <= |original| && s == original[..offset] + written + original[offset + |written|..]
  {
  }

  lemma WriteOneMore(original: Bytes, offset: nat, written: Bytes, s: Bytes, b: Byte)
    requires Written(original, offset, written, s) && offset + |written| < |original|
    ensures Written(original, offset, written + [b], s[offset + |written| := b])
  {
  }

  lemma OrTop(x: nat)
    requires x < 128
    ensures Or(x, 128) == x + 128
  {
    assert Pow2(7) == 128;
    OrIsSum(x, 1, 7);
  }

  /** sovTypes: the number of bytes encodeVarintTypes writes. */
  method SizeOfVarint(v: nat) returns (n: nat)
    ensures n == |VarintBytes(v)|
  {
    n := 0;
    var x: nat := v;
    while true
      invariant n + |VarintBytes(x)| == |VarintBytes(v)|
      decreases x
    {
      n := n + 1;
      var rest := x / 128;
      if rest == 0 {
        break;
      }
      x := rest;
    }
  }

  lemma {:induction false} DigitsAppend(bs: Bytes, b: Byte)
    ensures Digits(bs + [b]) == Digits(bs) + (b % 128) * Pow2(7 * |bs|)
    ensures Digits(bs) < Pow2(7 * |bs|)
  {
    if bs == [] {
      assert [b][1..] == [];
    } else {
      assert (bs + [b])[1..] == bs[1..] + [b];
      DigitsAppend(bs[1..], b);
      Pow2Add(7, 7 * |bs[1..]|);
      assert Pow2(7) == 128;
      assert 128 * ((b % 128) * Pow2(7 * |bs[1..]|)) == (b % 128) * Pow2(7 * |bs|);
    }
  }

  lemma DigitsFit(bs: Bytes)
    requires |bs| < MAX_VARINT
    ensures Digits(bs) == Value(bs)
  {
    hide Pow2, Digits;
    DigitsAppend(bs, 0);
    Pow2Of64();
    Pow2Add(64 - 7 * |bs|, 7 * |bs|);
    ScaleMonotone(1, Pow2(64 - 7 * |bs|), Pow2(7 * |bs|));
  }

  /** One turn of the reading loop: or-ing in the shifted digit extends the value read so far. */
  lemma AccumulateDigit(bs: Bytes, b: Byte)
    requires |bs| < MAX_VARINT
    ensures Or(Value(bs), ShiftLeft(b % 128, 7 * |bs|)) == Value(bs + [b])
  {
    var s := 7 * |bs|;
    DigitsFit(bs);
    DigitsAppend(bs, b);
    var q := ShiftLeftMultiple(b % 128, s);
    OrIsSum(Digits(bs), q, s);
    var high := (b % 128) * Pow2(s);
    assert high == (high / TWO_64) * TWO_64 + ShiftLeft(b % 128, s);
    assert (q + 1) * Pow2(s) == q * Pow2(s) + Pow2(s);
    ModUnique(Digits(bs) + high, TWO_64, high / TWO_64, Digits(bs) + q * Pow2(s));
  }

  /** The reading loop, of which the Go code has one copy for each varint it reads. */
  method DecodeVarint(d: Bytes, start: nat) returns (r: Read)
    requires start <= |d|
    ensures r == ReadVarint(d[start..])
  {
    ghost var s := d[start..];
    var shift: nat, i: nat, value: nat := 0, start, 0;
    while true
      invariant start <= i <= |d| && shift == 7 * (i - start) <= 70
      invariant value == Value(s[..i - start])
      invariant forall k | 0 <= k < i - start :: s[k] >= 128
      decreases 70 - shift
    {
      ghost var n := i - start;
      if shift >= 64 {
        ScanRunsOut(s, 0);
        return Bad(IntOverflow);
      }
      if i >= |d| {
        ScanRunsOut(s, 0);
        return Bad(UnexpectedEOF);
      }
      var b := d[i];
      AccumulateDigit(s[..n], b);
      assert s[..n] + [b] == s[..n + 1];
      value := Or(value, ShiftLeft(b % 128, shift));
      i := i + 1;
      if b < 128 {
        ReadVarintExact(s, n + 1);
        return Good(value, i - start);
      }
      shift := shift + 7;
    }
  }
}
