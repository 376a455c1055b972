/**
  What the parser makes of a message that was cut off (types/types.pb.go): it keeps the fields that
  arrived whole, and reports an unexpected end of input unless the cut fell between two fields.
 */
module Truncation {
  import opened Machine
  import opened Varints
  import opened Wire
  import opened Grammar

  /** The fields that lie within the first k bytes. */
  function WholeFields(fs: Fields, k: nat): Fields {
    match fs
    case Nil => Nil
    case Cons(f, rest) => if |Encoding(f)| <= k then Cons(f, WholeFields(rest, k - |Encoding(f)|)) else Nil
  }

  lemma ReadVarintCut(bs: Bytes, k: nat)
    requires IsVarint(bs) && k < |bs|
    ensures ReadVarint(bs[..k]) == Bad(UnexpectedEOF)
  {
    ScanRunsOut(bs[..k], 0);
  }

  /** A field that was cut ends the skip, or is skipped to where it should have ended. */
  lemma {:induction false} SkipsCutField(f: Field, k: nat)
    requires WellFormed(f) && |Encoding(f)| <= MAX_INT && 0 < k < |Encoding(f)|
    ensures var r := Skip(Encoding(f)[..k]); r == SkipFailed(UnexpectedEOF) || r == Skipped(|Encoding(f)|)
    decreases f, 0
  {
    hide ReadVarint, IsVarint, Value, SkipGroup, Encodings;
    var d, i := Encoding(f)[..k], |f.tag|;
    EncodingNonEmpty(f);
    if k < i {
      assert d == f.tag[..k];
      ReadVarintCut(f.tag, k);
    } else {
      var body := Encoding(f)[i..][..k - i];
      assert d == f.tag + body && d[i..] == body;
      ReadVarintFront(f.tag, body);
      match f {
        case Number(_, digits) =>
          assert body == digits[..k - i];
          ReadVarintCut(digits, k - i);
        case Delimited(_, length, contents) =>
          if k - i < |length| {
            assert body == length[..k - i];
            ReadVarintCut(length, k - i);
          } else {
            assert body == length + contents[..k - i - |length|];
            ReadVarintFront(length, contents[..k - i - |length|]);
          }
        case Group(_, members, end) =>
          assert body == (Encodings(members) + end)[..k - i];
          SkipsCutGroup(members, end, k - i, i);
        case _ =>
      }
    }
  }

  lemma {:induction false} SkipsCutGroup(fs: Fields, end: Bytes, k: nat, off: nat)
    requires AllWellFormed(fs) && IsTag(end, 4)
    requires 1 <= off && off + |Encodings(fs)| + |end| <= MAX_INT
    requires k < |Encodings(fs)| + |end|
    ensures SkipGroup((Encodings(fs) + end)[..k], off) == SkipFailed(UnexpectedEOF)
    decreases fs, 1
  {
    hide ReadVarint, IsVarint, Value, Skip, SkipGroup, Encoding;
    var d := (Encodings(fs) + end)[..k];
    match fs {
      case Nil =>
        assert d == end[..k];
        ReadVarintCut(end, k);
        UnreadGroupFails(d, off);
      case Cons(f, others) =>
        var n := |Encoding(f)|;
        if k < n {
          assert d == Encoding(f)[..k];
          CutMemberEndsGroup(f, k, off);
        } else {
          var rest := (Encodings(others) + end)[..k - n];
          assert d == Encoding(f) + rest;
          PassesMember(f, rest, off);
          SkipsCutGroup(others, end, k - n, off + n);
        }
    }
  }

  lemma PassesMember(f: Field, rest: Bytes, off: nat)
    requires WellFormed(f) && 1 <= off && off + |Encoding(f)| + |rest| <= MAX_INT
    ensures SkipGroup(Encoding(f) + rest, off) == SkipGroup(rest, off + |Encoding(f)|)
  {
    hide WellFormed, Encoding, SkipGroup;
    var fs := Cons(f, Nil);
    assert Encodings(fs) == Encoding(f) + Encodings(Nil) == Encoding(f);
    PassesMembers(fs, rest, off);
  }

  lemma UnreadGroupFails(d: Bytes, off: nat)
    requires 1 <= off && off + |d| <= MAX_INT
    requires ReadVarint(d) == Bad(UnexpectedEOF)
    ensures SkipGroup(d, off) == SkipFailed(UnexpectedEOF)
  {
    hide ReadVarint;
  }

  lemma {:induction false} CutMemberEndsGroup(f: Field, k: nat, off: nat)
    requires WellFormed(f) && 1 <= off && off + |Encoding(f)| <= MAX_INT && k < |Encoding(f)|
    ensures SkipGroup(Encoding(f)[..k], off) == SkipFailed(UnexpectedEOF)
    decreases f, 1
  {
    hide ReadVarint, IsVarint, Value, Skip, Encoding;
    var d := Encoding(f)[..k];
    EncodingNonEmpty(f);
    if k < |f.tag| {
      assert d == f.tag[..k];
      ReadVarintCut(f.tag, k);
    } else {
      assert d == f.tag + d[|f.tag|..];
      ReadVarintFront(f.tag, d[|f.tag|..]);
      SkipsCutField(f, k);
    }
  }

  lemma DecodesCutField(f: Field, k: nat, base: nat, m: Message)
    requires Legal(Cons(f, Nil)) && 0 < k < |Encoding(f)| && base + |Encoding(f)| <= MAX_INT
    ensures DecodeField(Encoding(f)[..k], base, m) == Halted(Failed(UnexpectedEOF))
  {
    hide ReadVarint, IsVarint, Value, Skip;
    var d, i := Encoding(f)[..k], |f.tag|;
    EncodingNonEmpty(f);
    if k < i {
      assert d == f.tag[..k];
      ReadVarintCut(f.tag, k);
    } else {
      assert d == f.tag + d[i..];
      ReadVarintFront(f.tag, d[i..]);
      SkipsCutField(f, k);
      if NumberOf(f) == 1 || NumberOf(f) == 3 {
        if k - i < |f.length| {
          assert d[i..] == f.length[..k - i];
          ReadVarintCut(f.length, k - i);
        } else {
          assert d[i..] == f.length + f.body[..k - i - |f.length|];
          ReadVarintFront(f.length, f.body[..k - i - |f.length|]);
        }
      }
    }
  }

  /**
    Decoding the first k bytes of a legal message yields what its whole fields denote; it ends
    without error exactly when the cut falls between two fields, and at the end of input otherwise.
   */
  lemma {:induction false} TruncationIsNoticed(fs: Fields, k: nat, base: nat, m: Message)
    requires Legal(fs) && k <= |Encodings(fs)| && base + |Encodings(fs)| <= MAX_INT
    ensures var whole := WholeFields(fs, k);
            && Legal(whole) && |Encodings(whole)| <= k
            && Decode(Encodings(fs)[..k], base, m)
               == Decoding(if |Encodings(whole)| == k then Done else Failed(UnexpectedEOF), Denotes(whole, m))
    decreases fs
  {
    hide DecodeField, WellFormed, Encoding;
    match fs {
      case Nil =>
      case Cons(f, others) =>
        var d, n := Encodings(fs)[..k], |Encoding(f)|;
        if n <= k {
          var rest := Encodings(others)[..k - n];
          assert d == Encoding(f) + rest && d[n..] == rest;
          DecodesField(f, rest, base, m);
          TruncationIsNoticed(others, k - n, base + n, Denotes(Cons(f, Nil), m));
        } else if k > 0 {
          assert d == Encoding(f)[..k];
          DecodesCutField(f, k, base, m);
        }
    }
  }
}
