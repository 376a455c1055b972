/**
  Why the parser rejects a message (types/types.pb.go): for every malformed field behind fields that
  are legal, which error it reports, however deep in groups the cause lies. The fields in front of
  it are decoded all the same.
 */
module Rejections {
  import opened Machine
  import opened Varints
  import opened Wire
  import opened Grammar

  /** No varint ends within its first ten bytes. */
  predicate Unended(d: Bytes) {
    forall i | 0 <= i < |d| && i < 10 :: d[i] >= 128
  }

  function UnendedError(d: Bytes): Error {
    if |d| >= 10 then IntOverflow else UnexpectedEOF
  }

  /** Behind a tag of wire type w the bytes of rest have error e. */
  ghost predicate Malformed(w: nat, rest: Bytes, e: Error)
    decreases |rest|
  {
    || (w >= 6 && e == IllegalWireType)
    || ((w == 0 || w == 2) && Unended(rest) && e == UnendedError(rest))
    || (w == 2 && e == InvalidLength && exists k | 0 <= k <= |rest| :: IsVarint(rest[..k]) && Value(rest[..k]) >= 0x8000_0000_0000_0000)
    || (w == 3 && exists fs, d | AllWellFormed(fs) && rest == Encodings(fs) + d :: Unended(d) && e == UnendedError(d))
    || (w == 3 && exists fs, tag, d | AllWellFormed(fs) && IsVarint(tag) && rest == Encodings(fs) + (tag + d) ::
          Value(tag) % 8 != 4 && Malformed(Value(tag) % 8, d, e))
  }

  lemma UnendedFails(d: Bytes)
    requires Unended(d)
    ensures ReadVarint(d) == Bad(UnendedError(d))
  {
    ScanRunsOut(d, 0);
  }

  lemma LengthReads(rest: Bytes, e: Error)
    requires Malformed(2, rest, e)
    ensures match ReadVarint(rest) case Bad(error) => e == error case Good(v, _) => ToInt64(v) < 0 && e == InvalidLength
  {
    if Unended(rest) {
      UnendedFails(rest);
      if e == InvalidLength {
        var k :| 0 <= k <= |rest| && IsVarint(rest[..k]) && Value(rest[..k]) >= 0x8000_0000_0000_0000;
        ReadVarintExact(rest, k);
      }
    } else {
      var k :| 0 <= k <= |rest| && IsVarint(rest[..k]) && Value(rest[..k]) >= 0x8000_0000_0000_0000;
      ReadVarintExact(rest, k);
    }
  }

  /** skipTypes reports the error of the field it stands at, or of the member of a group it comes to. */
  lemma {:induction false} SkipRejects(tag: Bytes, rest: Bytes, e: Error)
    requires IsVarint(tag) && Malformed(Value(tag) % 8, rest, e) && |tag| + |rest| <= MAX_INT
    ensures Skip(tag + rest) == SkipFailed(e)
    decreases |rest|
  {
    hide ReadVarint, IsVarint, Value, SkipGroup, Encodings;
    var w := Value(tag) % 8;
    ReadVarintFront(tag, rest);
    assert (tag + rest)[|tag|..] == rest;
    if w == 0 {
      UnendedFails(rest);
    } else if w == 2 {
      LengthReads(rest, e);
    } else if w == 3 {
      GroupRejects(rest, e, |tag|);
    }
  }

  lemma {:induction false} GroupRejects(rest: Bytes, e: Error, off: nat)
    requires Malformed(3, rest, e) && 1 <= off && off + |rest| <= MAX_INT
    ensures SkipGroup(rest, off) == SkipFailed(e)
    decreases |rest|, 0
  {
    hide ReadVarint, IsVarint, Value, Skip, SkipGroup, Encodings;
    if fs, d :| AllWellFormed(fs) && rest == Encodings(fs) + d && Unended(d) && e == UnendedError(d) {
      UnendedMembers(fs, d, off);
    } else {
      var fs, tag, d :| AllWellFormed(fs) && IsVarint(tag) && rest == Encodings(fs) + (tag + d)
                        && Value(tag) % 8 != 4 && Malformed(Value(tag) % 8, d, e);
      TagNonEmpty(tag);
      SkipRejects(tag, d, e);
      RejectedMember(fs, tag, d, e, off);
    }
  }

  lemma UnendedMembers(fs: Fields, d: Bytes, off: nat)
    requires AllWellFormed(fs) && Unended(d) && 1 <= off && off + |Encodings(fs)| + |d| <= MAX_INT
    ensures SkipGroup(Encodings(fs) + d, off) == SkipFailed(UnendedError(d))
  {
    hide ReadVarint, Skip, SkipGroup, Encodings;
    PassesMembers(fs, d, off);
    UnendedFails(d);
    UnreadableGroup(d, off + |Encodings(fs)|, UnendedError(d));
  }

  lemma RejectedMember(fs: Fields, tag: Bytes, d: Bytes, e: Error, off: nat)
    requires AllWellFormed(fs) && IsVarint(tag) && Value(tag) % 8 != 4
    requires 1 <= off && off + |Encodings(fs)| + |tag| + |d| <= MAX_INT
    requires Skip(tag + d) == SkipFailed(e)
    ensures SkipGroup(Encodings(fs) + (tag + d), off) == SkipFailed(e)
  {
    hide ReadVarint, IsVarint, Value, Skip, SkipGroup, Encodings;
    PassesMembers(fs, tag + d, off);
    ReadVarintFront(tag, d);
    FailingMember(tag + d, off + |Encodings(fs)|, e);
  }

  lemma TagNonEmpty(tag: Bytes)
    requires IsVarint(tag)
    ensures 1 <= |tag|
  {
  }

  lemma UnreadableGroup(d: Bytes, off: nat, e: Error)
    requires 1 <= off && off + |d| <= MAX_INT && ReadVarint(d) == Bad(e)
    ensures SkipGroup(d, off) == SkipFailed(e)
  {
    hide ReadVarint, Skip;
  }

  lemma FailingMember(d: Bytes, off: nat, e: Error)
    requires 1 <= off && off + |d| <= MAX_INT
    requires ReadVarint(d).Good? && WireType(ReadVarint(d).value) != 4 && Skip(d) == SkipFailed(e)
    ensures SkipGroup(d, off) == SkipFailed(e)
  {
    hide ReadVarint, Skip;
  }

  /** The number in a tag of value v, as a signed number of 32 bits. */
  function Numbered(v: nat): int {
    var low := v / 8 % 0x1_0000_0000;
    if low < 0x8000_0000 then low else low - 0x1_0000_0000
  }

  /** A length that an int holds, but not the end that it makes, counted from the start of the tag. */
  ghost predicate Overlong(size: nat, rest: Bytes) {
    exists k | 0 <= k <= |rest| :: IsVarint(rest[..k]) && Value(rest[..k]) <= MAX_INT < size + k + Value(rest[..k])
  }

  lemma OverlongIsSkippedBack(tag: Bytes, rest: Bytes)
    requires IsVarint(tag) && Value(tag) % 8 == 2 && Overlong(|tag|, rest) && |tag| + |rest| <= MAX_INT
    ensures Skip(tag + rest).Skipped? && Skip(tag + rest).n < 0
  {
    hide IsVarint, Value, ReadVarint;
    var k :| 0 <= k <= |rest| && IsVarint(rest[..k]) && Value(rest[..k]) <= MAX_INT < |tag| + k + Value(rest[..k]);
    ReadVarintFront(tag, rest);
    assert (tag + rest)[|tag|..] == rest;
    ReadVarintExact(rest, k);
  }

  /** A field with error e: an unended tag, a tag that is refused in itself, or what is behind it. */
  ghost predicate Rejected(d: Bytes, e: Error) {
    || (d != [] && Unended(d) && e == UnendedError(d))
    || exists tag, rest | IsVarint(tag) && d == tag + rest ::
         var n, w := Numbered(Value(tag)), Value(tag) % 8;
         if w == 4 then e == EndGroupOutsideGroup
         else if n <= 0 then e == IllegalTag
         else if (n == 1 || n == 3) && w != 2 then e == WrongWireType
         else Malformed(w, rest, e) || (n != 1 && n != 3 && w == 2 && Overlong(|tag|, rest) && e == InvalidLength)
  }

  lemma FieldRejects(d: Bytes, e: Error, base: nat, m: Message)
    requires Rejected(d, e) && base + |d| <= MAX_INT
    ensures d != [] && DecodeField(d, base, m) == Halted(Failed(e))
  {
    hide ReadVarint, IsVarint, Value, Skip, Malformed, Overlong;
    if d != [] && Unended(d) && e == UnendedError(d) {
      UnendedFails(d);
    } else {
      var tag, rest :| IsVarint(tag) && d == tag + rest &&
         var n, w := Numbered(Value(tag)), Value(tag) % 8;
         if w == 4 then e == EndGroupOutsideGroup
         else if n <= 0 then e == IllegalTag
         else if (n == 1 || n == 3) && w != 2 then e == WrongWireType
         else Malformed(w, rest, e) || (n != 1 && n != 3 && w == 2 && Overlong(|tag|, rest) && e == InvalidLength);
      TagNonEmpty(tag);
      ReadVarintFront(tag, rest);
      assert d[|tag|..] == rest;
      var n, w := Numbered(Value(tag)), Value(tag) % 8;
      if w != 4 && n > 0 {
        if n == 1 || n == 3 {
          if w == 2 { LengthReads(rest, e); }
        } else if Malformed(w, rest, e) {
          SkipRejects(tag, rest, e);
        } else {
          OverlongIsSkippedBack(tag, rest);
        }
      }
    }
  }

  /** Behind legal fields, a malformed one ends decoding with its error and the message they denote. */
  lemma EveryRejection(fs: Fields, d: Bytes, e: Error, base: nat, m: Message)
    requires Legal(fs) && Rejected(d, e) && base + |Encodings(fs)| + |d| <= MAX_INT
    ensures Decode(Encodings(fs) + d, base, m) == Decoding(Failed(e), Denotes(fs, m))
  {
    hide DecodeField, Rejected, Legal, Encodings, Denotes;
    DecodesFields(fs, d, base, m);
    FieldRejects(d, e, base + |Encodings(fs)|, Denotes(fs, m));
  }
}
