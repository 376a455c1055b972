/**
  The generated codec (types/types.pb.go): Marshal fills a buffer that Size measured, Unmarshal
  assigns the fields of its receiver while it walks the input. ConnectMessage and
  DisconnectMessage have the same fields and the same code, so one class stands for both.
 */
module Codec {
  import opened Machine
  import opened Varints
  import opened Wire
  import opened Grammar
  import opened Bounds

  const ID_TAG: Byte := 0x0a
  const KEY_TAG: Byte := 0x1a

  /** An empty string is left out of the encoding. */
  function StringBytes(tag: Byte, s: Bytes): Bytes {
    if s == [] then [] else [tag] + (VarintBytes(|s|) + s)
  }

  function MessageBytes(m: Message): Bytes {
    StringBytes(ID_TAG, m.id) + StringBytes(KEY_TAG, m.key)
  }

  /** What decoding `from` into `into` leaves: the fields that are present win. */
  function Merge(into: Message, from: Message): Message {
    Message(if from.id == [] then into.id else from.id, if from.key == [] then into.key else from.key)
  }

  // ---------------------------------------------------------------- round trip

  function StringField(tag: Byte, s: Bytes): Field {
    Delimited([tag], VarintBytes(|s|), s)
  }

  function StringFields(tag: Byte, s: Bytes, rest: Fields): Fields {
    if s == [] then rest else Cons(StringField(tag, s), rest)
  }

  lemma StringFieldIsLegal(tag: Byte, s: Bytes)
    requires tag == ID_TAG || tag == KEY_TAG
    requires |s| < TWO_64
    ensures WellFormed(StringField(tag, s))
    ensures NumberOf(StringField(tag, s)) == if tag == ID_TAG then 1 else 3
    ensures s != [] ==> Encoding(StringField(tag, s)) == StringBytes(tag, s)
  {
    hide VarintBytes;
    VarintRoundTrip(|s|, []);
    assert Value([tag]) == tag by { assert Digits([tag][1..]) == 0; }
  }

  lemma StringFieldsEncode(tag: Byte, s: Bytes, rest: Fields)
    requires tag == ID_TAG || tag == KEY_TAG
    requires |s| < TWO_64 && Legal(rest)
    ensures Legal(StringFields(tag, s, rest))
    ensures Encodings(StringFields(tag, s, rest)) == StringBytes(tag, s) + Encodings(rest)
  {
    hide WellFormed, Encoding, VarintBytes;
    StringFieldIsLegal(tag, s);
    assert [] + Encodings(rest) == Encodings(rest);
  }

  function MessageFields(m: Message): Fields {
    StringFields(ID_TAG, m.id, StringFields(KEY_TAG, m.key, Nil))
  }

  /** Fields stand in the order of their numbers, each at most once. */
  predicate Ascending(fs: Fields) {
    fs.Nil? || fs.tail.Nil? || (NumberOf(fs.head) < NumberOf(fs.tail.head) && Ascending(fs.tail))
  }

  lemma MessageBytesAreFields(m: Message, into: Message)
    requires |m.id| < TWO_64 && |m.key| < TWO_64
    ensures Ascending(MessageFields(m))
    ensures Legal(MessageFields(m)) && Encodings(MessageFields(m)) == MessageBytes(m)
    ensures Denotes(MessageFields(m), into) == Merge(into, m)
  {
    hide WellFormed, Encoding, VarintBytes;
    StringFieldIsLegal(ID_TAG, m.id);
    StringFieldIsLegal(KEY_TAG, m.key);
    var keys := StringFields(KEY_TAG, m.key, Nil);
    StringFieldsEncode(KEY_TAG, m.key, Nil);
    StringFieldsEncode(ID_TAG, m.id, keys);
    assert StringBytes(KEY_TAG, m.key) + [] == StringBytes(KEY_TAG, m.key);
    var first := if m.id == [] then into else SetField(into, 1, m.id);
    assert Denotes(MessageFields(m), into) == Denotes(keys, first);
    assert Denotes(keys, first) == if m.key == [] then first else SetField(first, 3, m.key);
  }

  /**
    Decoding an encoded message into any message merges it, and into a fresh one gives it back;
    this holds wherever the encoding stands and whatever follows it.
   */
  lemma RoundTrip(m: Message, into: Message, rest: Bytes, base: nat)
    requires base + |MessageBytes(m)| + |rest| <= MAX_INT
    ensures Decode(MessageBytes(m) + rest, base, into)
            == Decode(rest, base + |MessageBytes(m)|, Merge(into, m))
    ensures Decode(MessageBytes(m), base, EMPTY) == Decoding(Done, m)
  {
    hide Legal, Encodings, Denotes, VarintBytes, DecodeField, MessageFields;
    MessageBytesAreFields(m, into);
    MessageBytesAreFields(m, EMPTY);
    DecodesFields(MessageFields(m), rest, base, into);
    DecodesFields(MessageFields(m), [], base, EMPTY);
    assert MessageBytes(m) + [] == MessageBytes(m);
    assert Merge(EMPTY, m) == m;
  }

  // ---------------------------------------------------------------- unknown fields, concatenation

  /**
    An unknown field at a field boundary is transparent: its presence changes neither the
    message nor the outcome, unless it pushes an overlong field behind it past the end of the
    integers, and then only from an end-of-input error to a panic.
   */
  lemma UnknownFieldIsTransparent(x: Bytes, f: Field, y: Bytes, m: Message)
    requires IsUnknown(f)
    requires |x| + |Encoding(f)| + |y| <= MAX_INT
    requires Decode(x, 0, m).outcome == Done
    ensures var without, with := Decode(x + y, 0, m), Decode(x + (Encoding(f) + y), 0, m);
            && with.message == without.message
            && (with == without <==> !(|x| + Reach(y) <= MAX_INT < |x| + |Encoding(f)| + Reach(y)))
            && (without.outcome == Done ==> with == without)
  {
    hide Decode, Reach, WellFormed, Encoding;
    var m' := Decode(x, 0, m).message;
    DecodeComposes(x, y, 0, m);
    DecodeComposes(x, Encoding(f) + y, 0, m);
    UnknownFieldIsIgnored(f, y, |x|, m');
    DecodeMoved(y, |x|, |Encoding(f)|, m');
  }

  lemma UnknownFieldIsIgnored(f: Field, y: Bytes, base: nat, m: Message)
    requires IsUnknown(f)
    requires base + |Encoding(f)| + |y| <= MAX_INT
    ensures Decode(Encoding(f) + y, base, m) == Decode(y, base + |Encoding(f)|, m)
  {
    hide WellFormed, Encoding, DecodeField;
    var fs := Cons(f, Nil);
    assert Legal(fs) && Denotes(fs, m) == m;
    assert Encodings(fs) == Encoding(f);
    DecodesFields(fs, y, base, m);
  }

  /**
    A field whose tag carries number n and wire type w: only 1 sets the ID, only 3 the key, both
    must be strings, and every other field leaves the message as it is.
   */
  lemma FieldByNumber(f: Field, n: int, w: int, y: Bytes, base: nat, m: Message)
    requires WellFormed(f) && Value(f.tag) == 8 * n + w && 1 <= n < 0x2000_0000 && 0 <= w < 8
    requires base + |Encoding(f)| + |y| <= MAX_INT
    ensures (n == 1 || n == 3) && w == 2 ==> f.Delimited?
    ensures Decode(Encoding(f) + y, base, m) ==
            if (n == 1 || n == 3) && w != 2 then Decoding(Failed(WrongWireType), m)
            else Decode(y, base + |Encoding(f)|, if n == 1 then m.(id := f.body) else if n == 3 then m.(key := f.body) else m)
  {
    hide IsVarint, Value, Decode, Encoding, WellFormed, NumberOf;
    NumberAndType(f, n, w);
    if (n == 1 || n == 3) && w != 2 {
      WrongTypeEnds(f, y, base, m);
    } else {
      var fs := Cons(f, Nil);
      assert Legal(fs);
      assert Encodings(fs) == Encoding(f) + Encodings(Nil) == Encoding(f);
      assert Denotes(fs, m) == if n == 1 then m.(id := f.body) else if n == 3 then m.(key := f.body) else m;
      DecodesFields(fs, y, base, m);
    }
  }

  lemma NumberAndType(f: Field, n: int, w: int)
    requires WellFormed(f) && Value(f.tag) == 8 * n + w && 1 <= n < 0x2000_0000 && 0 <= w < 8
    ensures NumberOf(f) == n && (f.Delimited? <==> w == 2)
  {
    hide IsVarint, Value;
  }

  lemma WrongTypeEnds(f: Field, y: Bytes, base: nat, m: Message)
    requires WellFormed(f) && (NumberOf(f) == 1 || NumberOf(f) == 3) && !f.Delimited?
    requires base + |Encoding(f)| + |y| <= MAX_INT
    ensures Decode(Encoding(f) + y, base, m) == Decoding(Failed(WrongWireType), m)
  {
    hide IsVarint, Value, ReadVarint;
    EncodingNonEmpty(f);
    var d, rest := Encoding(f) + y, Encoding(f)[|f.tag|..] + y;
    assert d == f.tag + rest;
    ReadVarintFront(f.tag, rest);
    assert DecodeField(d, base, m) == Halted(Failed(WrongWireType));
  }

  /**
    Decoding a concatenation is decoding the parts in turn into one message, error outcome
    included, exactly when no field of the second part declares an end that fits in an int on
    its own but not behind the first part.
   */
  lemma DecodingConcatenation(x: Bytes, y: Bytes, m: Message)
    requires |x| + |y| <= MAX_INT
    requires Decode(x, 0, m).outcome == Done
    ensures var whole, parts := Decode(x + y, 0, m), Decode(y, 0, Decode(x, 0, m).message);
            && whole.message == parts.message
            && (whole == parts <==> !(Reach(y) <= MAX_INT < |x| + Reach(y)))
            && (whole != parts ==> parts.outcome == Failed(UnexpectedEOF) && whole.outcome == Panicked)
  {
    hide Decode, Reach;
    DecodeComposes(x, y, 0, m);
    DecodeMoved(y, 0, |x|, Decode(x, 0, m).message);
  }

  // ---------------------------------------------------------------- the code

  class GatewayMessage {
    var gatewayID: Bytes
    var key: Bytes

    constructor (m: Message)
      ensures Contents() == m
    {
      gatewayID, key := m.id, m.key;
    }

    function Contents(): Message
      reads this
    {
      Message(gatewayID, key)
    }

    method Size() returns (n: nat)
      requires |gatewayID| < TWO_64 && |key| < TWO_64
      ensures n == |MessageBytes(Contents())|
    {
      hide VarintBytes;
      n := 0;
      var l := |gatewayID|;
      if l > 0 {
        var s := SizeOfVarint(l);
        n := n + 1 + l + s;
      }
      l := |key|;
      if l > 0 {
        var s := SizeOfVarint(l);
        n := n + 1 + l + s;
      }
    }

    method MarshalTo(buf: array<Byte>) returns (n: nat)
      requires |gatewayID| < TWO_64 && |key| < TWO_64
      requires |MessageBytes(Contents())| <= buf.Length
      modifies buf
      ensures n == |MessageBytes(Contents())|
      ensures buf[..] == MessageBytes(Contents()) + old(buf[n..])
    {
      hide VarintBytes;
      n := 0;
      if |gatewayID| > 0 {
        n := AppendString(buf, n, ID_TAG, gatewayID);
      }
      if |key| > 0 {
        n := AppendString(buf, n, KEY_TAG, key);
      }
    }

    method Marshal() returns (data: array<Byte>)
      requires |gatewayID| < TWO_64 && |key| < TWO_64
      ensures fresh(data) && data[..] == MessageBytes(Contents())
    {
      var size := Size();
      data := new Byte[size];
      var n := MarshalTo(data);
    }

    method Unmarshal(d: Bytes) returns (outcome: Outcome)
      requires |d| <= MAX_INT
      modifies this
      ensures Decoding(outcome, Contents()) == Decode(d, 0, old(Contents()))
    {
      hide DecodeField;
      var i: nat := 0;
      while i < |d|
        invariant i <= |d|
        invariant Decode(d, 0, old(Contents())) == Decode(d[i..], i, Contents())
      {
        var start := i;
        i, outcome := UnmarshalField(d, i);
        if outcome != Done {
          return;
        }
        assert d[start..][i - start..] == d[i..];
      }
      return Done;
    }

    /** One turn of Unmarshal's loop; a position below zero is the panic of the access it leads to. */
    method UnmarshalField(d: Bytes, start: nat) returns (next: nat, outcome: Outcome)
      requires start < |d| <= MAX_INT
      modifies this
      ensures match DecodeField(d[start..], start, old(Contents()))
              case Consumed(n, m) => outcome == Done && next == start + n && Contents() == m
              case Halted(o) => outcome == o && Contents() == old(Contents())
    {
      hide ReadVarint, Skip;
      next := start;
      var wire := DecodeVarint(d, start);
      if wire.Bad? {
        return next, Failed(wire.error);
      }
      var i := start + wire.size;
      var number := FieldNumber(wire.value);
      if WireType(wire.value) == 4 {
        return next, Failed(EndGroupOutsideGroup);
      }
      if number <= 0 {
        return next, Failed(IllegalTag);
      }
      if number == 1 || number == 3 {
        if WireType(wire.value) != 2 {
          return next, Failed(WrongWireType);
        }
        next, outcome := UnmarshalString(d, start, i, number);
      } else {
        var skippy := SkipTypes(d[start..]);
        if skippy.SkipFailed? {
          return next, Failed(skippy.error);
        }
        if skippy.SkipPanicked? {
          return next, Panicked;
        }
        if skippy.n < 0 {
          return next, Failed(InvalidLength);
        }
        var end := ToInt64(start + skippy.n);
        if end > |d| {
          return next, Failed(UnexpectedEOF);
        }
        if end < 0 {
          return next, Panicked;
        }
        return end, Done;
      }
    }

    method UnmarshalString(d: Bytes, ghost start: nat, i: nat, number: int)
      returns (next: nat, outcome: Outcome)
      requires start < i <= |d| <= MAX_INT && (number == 1 || number == 3)
      modifies this
      ensures match DecodeString(d[start..], i - start, start, number, old(Contents()))
              case Consumed(n, m) => outcome == Done && next == start + n && Contents() == m
              case Halted(o) => outcome == o && Contents() == old(Contents())
    {
      hide ReadVarint;
      assert d[start..][i - start..] == d[i..];
      next := 0;
      var length := DecodeVarint(d, i);
      if length.Bad? {
        return next, Failed(length.error);
      }
      var body := i + length.size;
      var len := ToInt64(length.value);
      if len < 0 {
        return next, Failed(InvalidLength);
      }
      var post := ToInt64(body + len);
      if post > |d| {
        return next, Failed(UnexpectedEOF);
      }
      if post < 0 {
        return next, Panicked;
      }
      assert d[start..][body - start..post - start] == d[body..post];
      if number == 1 {
        gatewayID := d[body..post];
      } else {
        key := d[body..post];
      }
      return post, Done;
    }
  }

  /** copy(buf[offset:], s) with room for all of s */
  method CopyInto(buf: array<Byte>, offset: nat, s: Bytes)
    requires offset + |s| <= buf.Length
    modifies buf
    ensures buf[..] == old(buf[..offset]) + s + old(buf[offset + |s|..])
  {
    for k := 0 to |s|
      invariant buf[..] == old(buf[..offset]) + s[..k] + old(buf[offset + k..])
    {
      buf[offset + k] := s[k];
    }
  }

  /** The tag, length and contents of one string field. */
  method AppendString(buf: array<Byte>, offset: nat, tag: Byte, s: Bytes) returns (end: nat)
    requires 0 < |s| < TWO_64
    requires offset + |StringBytes(tag, s)| <= buf.Length
    modifies buf
    ensures end == offset + |StringBytes(tag, s)|
    ensures buf[..] == old(buf[..offset]) + StringBytes(tag, s) + old(buf[end..])
  {
    hide VarintBytes;
    ghost var before := buf[..];
    ghost var length := VarintBytes(|s|);
    buf[offset] := tag;
    ghost var tagged := buf[..];
    assert tagged == before[..offset] + [tag] + before[offset + 1..];
    var i := EncodeVarint(buf, offset + 1, |s|);
    ghost var measured := buf[..];
    CopyInto(buf, i, s);
    end := i + |s|;
    Assemble(before, tagged, measured, buf[..], offset, [tag], length, s);
  }

  /** Three writes, each right behind the one before it, are one write. */
  lemma Assemble(s0: Bytes, s1: Bytes, s2: Bytes, s3: Bytes, offset: nat, a: Bytes, b: Bytes, c: Bytes)
    requires offset + |a| + |b| + |c| <= |s0|
    requires s1 == s0[..offset] + a + s0[offset + |a|..]
    requires s2 == s1[..offset + |a|] + b + s1[offset + |a| + |b|..]
    requires s3 == s2[..offset + |a| + |b|] + c + s2[offset + |a| + |b| + |c|..]
    ensures s3 == s0[..offset] + (a + (b + c)) + s0[offset + |a| + |b| + |c|..]
  {
  }

  /** skipTypes: the recursion is on members of a group, each a shorter rest of the input. */
  method SkipTypes(d: Bytes) returns (r: Skipping)
    requires |d| <= MAX_INT
    ensures r == Skip(d)
    decreases |d|
  {
    hide ReadVarint;
    if |d| == 0 {
      return SkipPanicked;
    }
    var wire := DecodeVarint(d, 0);
    assert d[0..] == d;
    if wire.Bad? {
      return SkipFailed(wire.error);
    }
    var i := wire.size;
    match WireType(wire.value) {
      case 0 =>
        var number := DecodeVarint(d, i);
        return if number.Bad? then SkipFailed(number.error) else Skipped(i + number.size);
      case 1 =>
        return Skipped(ToInt64(i + 8));
      case 2 =>
        var length := DecodeVarint(d, i);
        if length.Bad? {
          return SkipFailed(length.error);
        }
        if ToInt64(length.value) < 0 {
          return SkipFailed(InvalidLength);
        }
        return Skipped(ToInt64(i + length.size + ToInt64(length.value)));
      case 3 =>
        r := SkipMembersOf(d, i);
      case 4 =>
        return Skipped(i);
      case 5 =>
        return Skipped(ToInt64(i + 4));
      case _ =>
        return SkipFailed(IllegalWireType);
    }
  }

  /** The group loop of skipTypes. */
  method SkipMembersOf(d: Bytes, first: nat) returns (r: Skipping)
    requires 1 <= first <= |d| <= MAX_INT
    ensures r == SkipGroup(d[first..], first)
    decreases |d|, 0
  {
    hide ReadVarint, Skip;
    var i: int := first;
    while true
      invariant i < 0 || 1 <= i
      invariant SkipGroup(d[first..], first) ==
                if i < 0 then SkipPanicked
                else if i > |d| then SkipFailed(UnexpectedEOF)
                else SkipGroup(d[i..], i)
      decreases if 0 <= i <= |d| then 1 + |d| - i else 0
    {
      var start := i;
      if start < 0 {
        return SkipPanicked;
      }
      if start > |d| {
        return SkipFailed(UnexpectedEOF);
      }
      var inner := DecodeVarint(d, start);
      if inner.Bad? {
        return SkipFailed(inner.error);
      }
      if WireType(inner.value) == 4 {
        return Skipped(i + inner.size);
      }
      SkipRange(d[start..]);
      var next := SkipTypes(d[start..]);
      if !next.Skipped? {
        return next;
      }
      i := ToInt64(start + next.n);
      assert i >= 0 ==> next.n >= 1 && i == start + next.n;
      assert 0 <= i <= |d| ==> d[start..][next.n..] == d[i..];
    }
  }
}
