/**
  The parser of the generated message codec (types/types.pb.go) as functions on byte strings:
  skipping one field, skipping the members of a group, and decoding a whole message. Positions
  are 64-bit signed integers that wrap around, as in Go; an access outside the buffer is a panic.
 */
module Wire {
  import opened Machine
  import opened Varints

  /** The two fields of ConnectMessage and of DisconnectMessage, whose codecs are the same code. */
  datatype Message = Message(id: Bytes, key: Bytes)

  const EMPTY := Message([], [])

  /** skipTypes: how far to move on, which may lie outside the buffer or even be negative. */
  datatype Skipping = Skipped(n: int) | SkipFailed(error: Error) | SkipPanicked

  datatype Outcome = Done | Failed(error: Error) | Panicked

  /** Decoding assigns fields as it goes, so there is a message whatever the outcome. */
  datatype Decoding = Decoding(outcome: Outcome, message: Message)

  function WireType(tag: nat): nat { tag % 8 }

  function FieldNumber(tag: nat): int { ToInt32(tag / 8) }

  function SetField(m: Message, number: int, value: Bytes): Message
    requires number == 1 || number == 3
  {
    if number == 1 then m.(id := value) else m.(key := value)
  }

  function Skip(d: Bytes): (r: Skipping)
    requires |d| <= MAX_INT
    ensures r.Skipped? ==> -MAX_INT - 1 <= r.n <= MAX_INT
    ensures r.Skipped? ==> 1 <= r.n || r.n + MAX_INT + 2 <= |d|
    decreases |d|, 0
  {
    if d == [] then SkipPanicked
    else
      match ReadVarint(d)
      case Bad(e) => SkipFailed(e)
      case Good(tag, i) =>
        match WireType(tag)
        case 0 => (match ReadVarint(d[i..]) case Good(_, n) => Skipped(i + n) case Bad(e) => SkipFailed(e))
        case 1 => Skipped(ToInt64(i + 8))
        case 2 =>
          (match ReadVarint(d[i..])
           case Bad(e) => SkipFailed(e)
           case Good(v, n) =>
             if ToInt64(v) < 0 then SkipFailed(InvalidLength) else Skipped(ToInt64(i + n + ToInt64(v))))
        case 3 => SkipGroup(d[i..], i)
        case 4 => Skipped(i)
        case 5 => Skipped(ToInt64(i + 4))
        case _ => SkipFailed(IllegalWireType)
  }

  /** The members of a group up to its end tag; d is what follows the first `off` bytes of the slice. */
  function SkipGroup(d: Bytes, off: nat): (r: Skipping)
    requires 1 <= off && off + |d| <= MAX_INT
    ensures r.Skipped? ==> off < r.n <= off + |d|
    decreases |d|, 1
  {
    match ReadVarint(d)
    case Bad(e) => SkipFailed(e)
    case Good(tag, i) =>
      if WireType(tag) == 4 then Skipped(off + i)
      else
        match Skip(d)
        case SkipFailed(e) => SkipFailed(e)
        case SkipPanicked => SkipPanicked
        case Skipped(n) =>
          var next := ToInt64(off + n);
          if next < 0 then SkipPanicked
          else if next > off + |d| then SkipFailed(UnexpectedEOF)
          else SkipGroup(d[n..], next)
  }

  /** One turn of Unmarshal's loop: the bytes it consumed and the message after it, or the end. */
  datatype Turn = Consumed(n: nat, message: Message) | Halted(outcome: Outcome)

  /** Unmarshal reads one field at position base, where d is the rest of the buffer. */
  function DecodeField(d: Bytes, base: nat, m: Message): (r: Turn)
    requires d != [] && base + |d| <= MAX_INT
    ensures r.Consumed? ==> 1 <= r.n <= |d|
    ensures r.Halted? ==> r.outcome != Done
  {
    match ReadVarint(d)
    case Bad(e) => Halted(Failed(e))
    case Good(tag, i) =>
      var number := FieldNumber(tag);
      if WireType(tag) == 4 then Halted(Failed(EndGroupOutsideGroup))
      else if number <= 0 then Halted(Failed(IllegalTag))
      else if number == 1 || number == 3 then
        if WireType(tag) != 2 then Halted(Failed(WrongWireType))
        else DecodeString(d, i, base, number, m)
      else
        match Skip(d)
        case SkipFailed(e) => Halted(Failed(e))
        case SkipPanicked => Halted(Panicked)
        case Skipped(n) =>
          if n < 0 then Halted(Failed(InvalidLength))
          else
            var next := ToInt64(base + n);
            if next > base + |d| then Halted(Failed(UnexpectedEOF))
            else if next < 0 then Halted(Panicked)
            else Consumed(n, m)
  }

  /** The length and the contents of a string field whose tag took i bytes. */
  function DecodeString(d: Bytes, i: nat, base: nat, number: int, m: Message): (r: Turn)
    requires 1 <= i <= |d| && base + |d| <= MAX_INT
    requires number == 1 || number == 3
    ensures r.Consumed? ==> 1 <= r.n <= |d|
    ensures r.Halted? ==> r.outcome != Done
  {
    match ReadVarint(d[i..])
    case Bad(e) => Halted(Failed(e))
    case Good(v, n) =>
      var len := ToInt64(v);
      if len < 0 then Halted(Failed(InvalidLength))
      else
        var post := ToInt64(base + i + n + len);
        if post > base + |d| then Halted(Failed(UnexpectedEOF))
        else if post < 0 then Halted(Panicked)
        else Consumed(i + n + len, SetField(m, number, d[i + n..i + n + len]))
  }

  /** Unmarshal from position base on, where d is the rest of the buffer and m what was read so far. */
  function Decode(d: Bytes, base: nat, m: Message): (r: Decoding)
    requires base + |d| <= MAX_INT
    decreases |d|
  {
    if d == [] then Decoding(Done, m)
    else
      match DecodeField(d, base, m)
      case Halted(outcome) => Decoding(outcome, m)
      case Consumed(n, m') => Decode(d[n..], base + n, m')
  }

  lemma SkipGroupEnds(d: Bytes, off: nat)
    requires 1 <= off && off + |d| <= MAX_INT
    requires ReadVarint(d).Good? && WireType(ReadVarint(d).value) == 4
    ensures SkipGroup(d, off) == Skipped(off + ReadVarint(d).size)
  {
    hide ReadVarint;
  }

  lemma SkipGroupTurn(d: Bytes, off: nat, n: nat)
    requires 1 <= off && off + |d| <= MAX_INT
    requires ReadVarint(d).Good? && WireType(ReadVarint(d).value) != 4
    requires Skip(d) == Skipped(n) && 1 <= n <= |d|
    ensures SkipGroup(d, off) == SkipGroup(d[n..], off + n)
  {
    hide ReadVarint, Skip;
  }

  /** A group that is skipped in full has its first member inside the buffer. */
  lemma SkippedGroupTurn(d: Bytes, off: nat) returns (n: nat)
    requires 1 <= off && off + |d| <= MAX_INT
    requires SkipGroup(d, off).Skipped? && WireType(ReadVarint(d).value) != 4
    ensures ReadVarint(d).Good?
    ensures Skip(d) == Skipped(n) && 1 <= n <= |d|
    ensures SkipGroup(d, off) == SkipGroup(d[n..], off + n)
  {
    hide ReadVarint;
    n := Skip(d).n;
  }

  lemma SkippedGroupReads(d: Bytes, off: nat)
    requires 1 <= off && off + |d| <= MAX_INT
    requires SkipGroup(d, off).Skipped?
    ensures ReadVarint(d).Good?
  {
    hide ReadVarint, Skip;
  }

  // ---------------------------------------------------------------- stability under more input

  /** A skip that succeeds does not look beyond what it skips. */
  lemma {:induction false} SkipStable(d: Bytes, more: Bytes)
    requires |d| + |more| <= MAX_INT
    requires Skip(d).Skipped?
    ensures Skip(d + more) == Skip(d)
    decreases |d|, 0
  {
    ReadVarintStable(d, more);
    var i := ReadVarint(d).size;
    assert (d + more)[i..] == d[i..] + more;
    match WireType(ReadVarint(d).value) {
      case 0 => ReadVarintStable(d[i..], more);
      case 2 => ReadVarintStable(d[i..], more);
      case 3 => SkipGroupStable(d[i..], more, i);
      case _ =>
    }
  }

  lemma {:induction false} SkipGroupStable(d: Bytes, more: Bytes, off: nat)
    requires 1 <= off && off + |d| + |more| <= MAX_INT
    requires SkipGroup(d, off).Skipped?
    ensures SkipGroup(d + more, off) == SkipGroup(d, off)
    decreases |d|, 1
  {
    hide ReadVarint, Skip, SkipGroup;
    SkippedGroupReads(d, off);
    ReadVarintStable(d, more);
    if WireType(ReadVarint(d).value) == 4 {
      SkipGroupEnds(d, off);
      SkipGroupEnds(d + more, off);
    } else {
      var n := SkippedGroupTurn(d, off);
      SkipStable(d, more);
      SkipGroupTurn(d + more, off, n);
      assert (d + more)[n..] == d[n..] + more;
      SkipGroupStable(d[n..], more, off + n);
    }
  }

  lemma DoneTurn(d: Bytes, base: nat, m: Message) returns (n: nat, m': Message)
    requires d != [] && base + |d| <= MAX_INT
    requires Decode(d, base, m).outcome == Done
    ensures DecodeField(d, base, m) == Consumed(n, m') && 1 <= n <= |d|
    ensures Decode(d[n..], base + n, m') == Decode(d, base, m)
  {
    hide DecodeField;
    n, m' := DecodeField(d, base, m).n, DecodeField(d, base, m).message;
  }

  lemma DecodeFieldStable(d: Bytes, more: Bytes, base: nat, m: Message)
    requires d != [] && base + |d| + |more| <= MAX_INT
    requires DecodeField(d, base, m).Consumed?
    ensures DecodeField(d + more, base, m) == DecodeField(d, base, m)
  {
    hide ReadVarint, Skip;
    ReadVarintStable(d, more);
    var tag, i := ReadVarint(d).value, ReadVarint(d).size;
    if FieldNumber(tag) == 1 || FieldNumber(tag) == 3 {
      assert (d + more)[i..] == d[i..] + more;
      ReadVarintStable(d[i..], more);
      var body, end := i + ReadVarint(d[i..]).size, DecodeField(d, base, m).n;
      assert (d + more)[body..end] == d[body..end];
    } else {
      SkipStable(d, more);
    }
  }

  /**
    Decoding composes: when x decodes without error, decoding x and then more is decoding
    the rest, at its place in the buffer, into the message that x left behind.
   */
  lemma {:induction false} DecodeComposes(x: Bytes, y: Bytes, base: nat, m: Message)
    requires base + |x| + |y| <= MAX_INT
    requires Decode(x, base, m).outcome == Done
    ensures Decode(x + y, base, m) == Decode(y, base + |x|, Decode(x, base, m).message)
    decreases |x|
  {
    hide DecodeField;
    if x == [] {
      assert x + y == y;
    } else {
      var n, m' := DoneTurn(x, base, m);
      DecodeFieldStable(x, y, base, m);
      assert (x + y)[n..] == x[n..] + y;
      DecodeComposes(x[n..], y, base + n, m');
    }
  }
}
