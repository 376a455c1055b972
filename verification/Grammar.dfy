/**
  The wire format as a grammar, independent of the parser: a message is a string of fields, a
  field is a tag followed by what its wire type prescribes, and a group holds fields up to an end
  tag. The parser of module Wire accepts exactly the byte strings this grammar derives, and the
  message it returns is the one the fields denote, the last value of a field winning.
 */
module Grammar {
  import opened Machine
  import opened Varints
  import opened Wire

  /** A field keeps its tag and its length as the varint bytes they are written with. */
  datatype Field =
    | Number(tag: Bytes, digits: Bytes)
    | Fixed64(tag: Bytes, body: Bytes)
    | Delimited(tag: Bytes, length: Bytes, body: Bytes)
    | Group(tag: Bytes, members: Fields, end: Bytes)
    | Fixed32(tag: Bytes, body: Bytes)

  datatype Fields = Nil | Cons(head: Field, tail: Fields)

  predicate IsTag(bs: Bytes, wireType: nat) {
    IsVarint(bs) && Value(bs) % 8 == wireType
  }

  predicate WellFormed(f: Field) {
    match f
    case Number(tag, digits) => IsTag(tag, 0) && IsVarint(digits)
    case Fixed64(tag, body) => IsTag(tag, 1) && |body| == 8
    case Delimited(tag, length, body) => IsTag(tag, 2) && IsVarint(length) && Value(length) == |body|
    case Group(tag, members, end) => IsTag(tag, 3) && AllWellFormed(members) && IsTag(end, 4)
    case Fixed32(tag, body) => IsTag(tag, 5) && |body| == 4
  }

  predicate AllWellFormed(fs: Fields) {
    match fs
    case Nil => true
    case Cons(f, rest) => WellFormed(f) && AllWellFormed(rest)
  }

  function Encoding(f: Field): Bytes {
    match f
    case Number(tag, digits) => tag + digits
    case Fixed64(tag, body) => tag + body
    case Delimited(tag, length, body) => tag + (length + body)
    case Group(tag, members, end) => tag + (Encodings(members) + end)
    case Fixed32(tag, body) => tag + body
  }

  function Encodings(fs: Fields): Bytes {
    match fs
    case Nil => []
    case Cons(f, rest) => Encoding(f) + Encodings(rest)
  }

  /** The number in a tag: its value without the three low bits, as a signed number of 32 bits. */
  function NumberOf(f: Field): int {
    var low := Value(f.tag) / 8 % 0x1_0000_0000;
    if low < 0x8000_0000 then low else low - 0x1_0000_0000
  }

  predicate IsUnknown(f: Field) {
    WellFormed(f) && NumberOf(f) > 0 && NumberOf(f) != 1 && NumberOf(f) != 3
  }

  /** Fields a message may hold: legal numbers, and strings where strings belong. */
  predicate Legal(fs: Fields) {
    match fs
    case Nil => true
    case Cons(f, rest) =>
      && WellFormed(f) && NumberOf(f) > 0
      && (NumberOf(f) == 1 || NumberOf(f) == 3 ==> f.Delimited?)
      && Legal(rest)
  }

  /** The message that fs turn m into. */
  function Denotes(fs: Fields, m: Message): Message
    requires Legal(fs)
  {
    match fs
    case Nil => m
    case Cons(f, rest) =>
      Denotes(rest, match NumberOf(f)
                    case 1 => m.(id := f.body)
                    case 3 => m.(key := f.body)
                    case _ => m)
  }

  // ---------------------------------------------------------------- what a tag carries

  /**
    The parser takes the three low bits of a tag for the wire type and the rest for the number, of
    which it drops the bits above the 32nd and reads that one as a sign.
   */
  lemma TagCarries(tag: nat, n: int, w: int)
    requires tag == 8 * n + w && 0 <= w < 8
    ensures WireType(tag) == w
    ensures n < 0x2000_0000 ==> FieldNumber(tag) == n
    ensures -0x8000_0000 <= FieldNumber(tag) < 0x8000_0000 && (n - FieldNumber(tag)) % 0x1_0000_0000 == 0
  {
  }

  // ---------------------------------------------------------------- skipping is exact

  lemma {:induction false} EncodingNonEmpty(f: Field)
    requires WellFormed(f)
    ensures 1 <= |f.tag| <= |Encoding(f)|
    ensures Encoding(f) == f.tag + Encoding(f)[|f.tag|..]
  {
  }

  /** skipTypes moves over exactly one field, however deep its groups are nested. */
  lemma {:induction false} SkipsField(f: Field, rest: Bytes)
    requires WellFormed(f)
    requires |Encoding(f)| + |rest| <= MAX_INT
    ensures Skip(Encoding(f) + rest) == Skipped(|Encoding(f)|)
    decreases f, 0
  {
    hide ReadVarint, IsVarint, Value, SkipGroup, Encodings;
    var d := Encoding(f) + rest;
    var body := Encoding(f)[|f.tag|..];
    assert d == f.tag + (body + rest);
    ReadVarintFront(f.tag, body + rest);
    assert d[|f.tag|..] == body + rest;
    match f {
      case Number(_, digits) => ReadVarintFront(digits, rest);
      case Delimited(_, length, contents) =>
        assert body + rest == length + (contents + rest);
        ReadVarintFront(length, contents + rest);
      case Group(tag, members, end) =>
        assert body + rest == Encodings(members) + (end + rest);
        SkipsMembers(members, end, rest, |tag|);
      case _ =>
    }
  }

  lemma {:induction false} SkipsMembers(fs: Fields, end: Bytes, rest: Bytes, off: nat)
    requires AllWellFormed(fs) && IsTag(end, 4)
    requires 1 <= off && off + |Encodings(fs)| + |end| + |rest| <= MAX_INT
    ensures SkipGroup(Encodings(fs) + (end + rest), off) == Skipped(off + |Encodings(fs)| + |end|)
    decreases fs, 2
  {
    hide ReadVarint, IsVarint, Value, Skip, SkipGroup, Encoding;
    PassesMembers(fs, end + rest, off);
    ReadVarintFront(end, rest);
    SkipGroupEnds(end + rest, off + |Encodings(fs)|);
  }

  /** The group loop passes over well-formed members, whatever comes behind them. */
  lemma {:induction false} PassesMembers(fs: Fields, d: Bytes, off: nat)
    requires AllWellFormed(fs)
    requires 1 <= off && off + |Encodings(fs)| + |d| <= MAX_INT
    ensures SkipGroup(Encodings(fs) + d, off) == SkipGroup(d, off + |Encodings(fs)|)
    decreases fs, 1
  {
    hide ReadVarint, IsVarint, Value, Skip, SkipGroup, Encoding;
    match fs {
      case Nil => assert Encodings(fs) + d == d;
      case Cons(f, others) =>
        var after := Encodings(others) + d;
        var whole := Encodings(fs) + d;
        assert whole == Encoding(f) + after;
        SkipsField(f, after);
        EncodingNonEmpty(f);
        assert whole == f.tag + (Encoding(f)[|f.tag|..] + after);
        ReadVarintFront(f.tag, Encoding(f)[|f.tag|..] + after);
        assert whole[|Encoding(f)|..] == after;
        SkipGroupTurn(whole, off, |Encoding(f)|);
        PassesMembers(others, d, off + |Encoding(f)|);
    }
  }

  /** Conversely, whatever skipTypes moves over inside the buffer is a field (or a lone end tag). */
  lemma {:induction false} SkippedIsField(d: Bytes) returns (f: Field)
    requires |d| <= MAX_INT
    requires Skip(d).Skipped? && 1 <= Skip(d).n <= |d|
    requires WireType(ReadVarint(d).value) != 4
    ensures WellFormed(f) && Encoding(f) == d[..Skip(d).n] && Value(f.tag) == ReadVarint(d).value
    ensures f.Delimited? <==> WireType(Value(f.tag)) == 2
    decreases |d|, 0
  {
    hide ReadVarint, IsVarint, Value, SkipGroup, Encodings;
    var i, end := ReadVarint(d).size, Skip(d).n;
    ReadVarintExact(d, i);
    var tag := d[..i];
    match WireType(Value(tag)) {
      case 0 =>
        ReadVarintExact(d[i..], end - i);
        f := Number(tag, d[i..][..end - i]);
      case 1 => f := Fixed64(tag, d[i..end]);
      case 2 =>
        var n := ReadVarint(d[i..]).size;
        ReadVarintExact(d[i..], n);
        f := Delimited(tag, d[i..][..n], d[i..end][n..]);
      case 3 =>
        var members, close := SkippedAreFields(d[i..], i);
        f := Group(tag, members, close);
      case _ => f := Fixed32(tag, d[i..end]);
    }
    assert d[..end] == tag + d[i..][..end - i];
  }

  lemma {:induction false} SkippedAreFields(d: Bytes, off: nat) returns (fs: Fields, end: Bytes)
    requires 1 <= off && off + |d| <= MAX_INT
    requires SkipGroup(d, off).Skipped?
    ensures AllWellFormed(fs) && IsTag(end, 4)
    ensures Encodings(fs) + end == d[..SkipGroup(d, off).n - off]
    decreases |d|, 1
  {
    hide ReadVarint, IsVarint, Value, Skip, SkipGroup, Encoding;
    SkippedGroupReads(d, off);
    var i := ReadVarint(d).size;
    ReadVarintExact(d, i);
    if WireType(Value(d[..i])) == 4 {
      SkipGroupEnds(d, off);
      fs, end := Nil, d[..i];
      assert Encodings(fs) + end == end;
    } else {
      var n := SkippedGroupTurn(d, off);
      var total := SkipGroup(d, off).n - off;
      var f := SkippedIsField(d);
      fs, end := SkippedAreFields(d[n..], off + n);
      assert d[..total] == d[..n] + d[n..][..total - n];
      assert Encoding(f) + (Encodings(fs) + end) == (Encoding(f) + Encodings(fs)) + end;
      fs := Cons(f, fs);
    }
  }

  // ---------------------------------------------------------------- decoding is exact

  lemma DecodesField(f: Field, rest: Bytes, base: nat, m: Message)
    requires Legal(Cons(f, Nil))
    requires base + |Encoding(f)| + |rest| <= MAX_INT
    ensures Encoding(f) != []
    ensures DecodeField(Encoding(f) + rest, base, m) == Consumed(|Encoding(f)|, Denotes(Cons(f, Nil), m))
  {
    hide ReadVarint, IsVarint, Value, Skip;
    var d := Encoding(f) + rest;
    var body := Encoding(f)[|f.tag|..];
    EncodingNonEmpty(f);
    assert d == f.tag + (body + rest);
    ReadVarintFront(f.tag, body + rest);
    if NumberOf(f) == 1 || NumberOf(f) == 3 {
      var i, n := |f.tag|, |f.length|;
      assert d[i..] == f.length + (f.body + rest);
      ReadVarintFront(f.length, f.body + rest);
      assert d[i + n..i + n + |f.body|] == f.body;
    } else {
      SkipsField(f, rest);
    }
  }

  /**
    Decoding a string of legal fields gives the message they denote and goes on after them,
    with whatever follows and whatever outcome that has.
   */
  lemma {:induction false} DecodesFields(fs: Fields, rest: Bytes, base: nat, m: Message)
    requires Legal(fs)
    requires base + |Encodings(fs)| + |rest| <= MAX_INT
    ensures Decode(Encodings(fs) + rest, base, m) == Decode(rest, base + |Encodings(fs)|, Denotes(fs, m))
    decreases fs
  {
    hide DecodeField, WellFormed, Encoding, NumberOf;
    match fs {
      case Nil => assert Encodings(fs) + rest == rest;
      case Cons(f, others) =>
        var d, after := Encodings(fs) + rest, Encodings(others) + rest;
        assert d == Encoding(f) + after;
        DecodesField(f, after, base, m);
        assert d[|Encoding(f)|..] == after;
        DecodesFields(others, rest, base + |Encoding(f)|, Denotes(Cons(f, Nil), m));
    }
  }

  /** Conversely, an input that decodes without error is a string of legal fields denoting the result. */
  lemma {:induction false} DecodedAreFields(d: Bytes, base: nat, m: Message) returns (fs: Fields)
    requires base + |d| <= MAX_INT
    requires Decode(d, base, m).outcome == Done
    ensures Legal(fs) && Encodings(fs) == d && Denotes(fs, m) == Decode(d, base, m).message
    decreases |d|
  {
    hide DecodeField, WellFormed, Encoding;
    if d == [] {
      fs := Nil;
    } else {
      var n, m' := DoneTurn(d, base, m);
      var f := ConsumedIsField(d, base, m);
      fs := DecodedAreFields(d[n..], base + n, m');
      fs := Cons(f, fs);
      assert d == d[..n] + d[n..];
    }
  }

  lemma ConsumedIsField(d: Bytes, base: nat, m: Message) returns (f: Field)
    requires d != [] && base + |d| <= MAX_INT
    requires DecodeField(d, base, m).Consumed?
    ensures Legal(Cons(f, Nil)) && Encoding(f) == d[..DecodeField(d, base, m).n]
    ensures Denotes(Cons(f, Nil), m) == DecodeField(d, base, m).message
  {
    hide ReadVarint, IsVarint, Value, Skip;
    var tag, i := ReadVarint(d).value, ReadVarint(d).size;
    if FieldNumber(tag) == 1 || FieldNumber(tag) == 3 {
      var n, end := ReadVarint(d[i..]).size, DecodeField(d, base, m).n;
      ReadVarintExact(d, i);
      ReadVarintExact(d[i..], n);
      f := Delimited(d[..i], d[i..][..n], d[i + n..end]);
      ValueIsWord(f.length);
      assert d[..end] == d[..i] + (d[i..][..n] + d[i + n..end]);
    } else {
      f := SkippedIsField(d);
    }
  }

  lemma ValueIsWord(bs: Bytes)
    ensures 0 <= Value(bs) < TWO_64
  {
  }

  /**
    Main result on the parser: Unmarshal accepts exactly the strings of legal fields, and leaves
    the message those fields denote.
   */
  lemma DecodeAcceptsTheGrammar(d: Bytes, base: nat, m: Message, result: Message)
    requires base + |d| <= MAX_INT
    ensures Decode(d, base, m) == Decoding(Done, result)
            <==> exists fs :: Legal(fs) && Encodings(fs) == d && Denotes(fs, m) == result
  {
    hide DecodeField, Legal, Encodings, Denotes;
    if Decode(d, base, m) == Decoding(Done, result) {
      var fs := DecodedAreFields(d, base, m);
    }
    forall fs | Legal(fs) && Encodings(fs) == d && Denotes(fs, m) == result
      ensures Decode(d, base, m) == Decoding(Done, result)
    {
      DecodesFields(fs, [], base, m);
      assert Encodings(fs) + [] == d;
    }
  }
}
