/**
  When the parser panics. Reach follows the parser in unbounded integers: it is the farthest end
  that a field at which the parser stops, or any member of a group it walks, declares within the
  slice it is measured in. The machine code panics exactly when that end does not fit in an int.
 */
module Bounds {
  import opened Machine
  import opened Varints
  import opened Wire

  /** Where a field that is no group ends, in unbounded integers; 0 when it is malformed. */
  function LeafEnd(d: Bytes): nat {
    match ReadVarint(d)
    case Bad(_) => 0
    case Good(tag, i) =>
      match WireType(tag)
      case 0 => (match ReadVarint(d[i..]) case Good(_, n) => i + n case Bad(_) => 0)
      case 1 => i + 8
      case 2 => StringEnd(d, i)
      case 4 => i
      case 5 => i + 4
      case _ => 0
  }

  function StringEnd(d: Bytes, i: nat): nat
    requires i <= |d|
  {
    match ReadVarint(d[i..])
    case Good(v, n) => if ToInt64(v) < 0 then 0 else i + n + ToInt64(v)
    case Bad(_) => 0
  }

  predicate IsGroup(d: Bytes) {
    ReadVarint(d).Good? && WireType(ReadVarint(d).value) == 3
  }

  /** The farthest end inside the group at the front of d, 0 when there is no group. */
  function GroupReach(d: Bytes): nat
    requires |d| <= MAX_INT
    decreases |d|, 0
  {
    if IsGroup(d) then MembersReach(d[ReadVarint(d).size..], ReadVarint(d).size) else 0
  }

  function MembersReach(d: Bytes, off: nat): nat
    requires 1 <= off && off + |d| <= MAX_INT
    decreases |d|, 1
  {
    match ReadVarint(d)
    case Bad(_) => 0
    case Good(tag, i) =>
      if WireType(tag) == 4 then 0
      else if WireType(tag) == 3 then
        if GroupReach(d) > MAX_INT then GroupReach(d)
        else if Skip(d).Skipped? && 1 <= Skip(d).n <= |d| then MembersReach(d[Skip(d).n..], off + Skip(d).n)
        else 0
      else if LeafEnd(d) == 0 || LeafEnd(d) > |d| then off + LeafEnd(d)
      else MembersReach(d[LeafEnd(d)..], off + LeafEnd(d))
  }

  /** The farthest end that decoding d meets, measured from the start of d. */
  function Reach(d: Bytes): nat
    requires |d| <= MAX_INT
    decreases |d|
  {
    if d == [] then 0
    else if |d| < FieldReach(d) || FieldReach(d) == 0 then FieldReach(d)
    else FieldReach(d) + Reach(d[FieldReach(d)..])
  }

  /** The end of the field at the front of d, 0 when it is rejected whatever follows it. */
  function FieldReach(d: Bytes): nat
    requires d != [] && |d| <= MAX_INT
  {
    match ReadVarint(d)
    case Bad(_) => 0
    case Good(tag, i) =>
      var number := FieldNumber(tag);
      if WireType(tag) == 4 || number <= 0 then 0
      else if number == 1 || number == 3 then if WireType(tag) == 2 then StringEnd(d, i) else 0
      else if GroupReach(d) > MAX_INT then GroupReach(d)
      else if Skip(d).Skipped? && Skip(d).n > 0 then Skip(d).n
      else 0
  }

  /** skipTypes on a field that is no group: its end in machine arithmetic, or an error. */
  lemma SkipsLeaf(d: Bytes)
    requires d != [] && |d| <= MAX_INT && !IsGroup(d)
    ensures Skip(d) != SkipPanicked
    ensures LeafEnd(d) == 0 <==> Skip(d).SkipFailed?
    ensures LeafEnd(d) <= |d| + MAX_INT
    ensures Skip(d).Skipped? ==> Skip(d).n == ToInt64(LeafEnd(d))
  {
    hide ReadVarint;
  }

  /** skipTypes panics exactly when a member of a group declares an end beyond MAX_INT. */
  lemma {:induction false} SkipPanicsExactly(d: Bytes)
    requires d != [] && |d| <= MAX_INT
    ensures Skip(d) == SkipPanicked <==> GroupReach(d) > MAX_INT
    decreases |d|, 0
  {
    hide ReadVarint, SkipGroup, MembersReach;
    if IsGroup(d) {
      var i := ReadVarint(d).size;
      SkipGroupPanicsExactly(d[i..], i);
    } else {
      SkipsLeaf(d);
    }
  }

  lemma {:induction false} SkipGroupPanicsExactly(d: Bytes, off: nat)
    requires 1 <= off && off + |d| <= MAX_INT
    ensures SkipGroup(d, off) == SkipPanicked <==> MembersReach(d, off) > MAX_INT
    decreases |d|, 2
  {
    hide ReadVarint, Skip, GroupReach, LeafEnd, MembersReach, SkipGroup;
    if ReadVarint(d).Good? && WireType(ReadVarint(d).value) != 4 {
      SkipRange(d);
      SkipPanicsExactly(d);
      if Skip(d).Skipped? && 1 <= Skip(d).n <= |d| {
        var n := Skip(d).n;
        SkipGroupTurn(d, off, n);
        ReachTurn(d, off, n);
        SkipGroupPanicsExactly(d[n..], off + n);
      } else {
        MemberStops(d, off);
      }
    } else {
      GroupStops(d, off);
    }
  }

  lemma GroupStops(d: Bytes, off: nat)
    requires 1 <= off && off + |d| <= MAX_INT
    requires ReadVarint(d).Good? ==> WireType(ReadVarint(d).value) == 4
    ensures SkipGroup(d, off) != SkipPanicked && MembersReach(d, off) == 0
  {
    hide ReadVarint, Skip;
  }

  lemma ReachTurn(d: Bytes, off: nat, n: nat)
    requires 1 <= off && off + |d| <= MAX_INT
    requires ReadVarint(d).Good? && WireType(ReadVarint(d).value) != 4
    requires Skip(d) == Skipped(n) && 1 <= n <= |d|
    ensures MembersReach(d, off) == MembersReach(d[n..], off + n)
    decreases |d|, 1
  {
    hide ReadVarint, Skip, GroupReach, LeafEnd;
    SkipRange(d);
    SkipPanicsExactly(d);
    if !IsGroup(d) {
      SkipsLeaf(d);
    }
  }

  /** A member that does not end inside the buffer ends the group one way or the other. */
  lemma MemberStops(d: Bytes, off: nat)
    requires 1 <= off && off + |d| <= MAX_INT
    requires ReadVarint(d).Good? && WireType(ReadVarint(d).value) != 4
    requires Skip(d).Skipped? ==> !(1 <= Skip(d).n <= |d|)
    ensures SkipGroup(d, off) == SkipPanicked <==> MembersReach(d, off) > MAX_INT
    decreases |d|, 1
  {
    hide ReadVarint, Skip, GroupReach, LeafEnd;
    SkipRange(d);
    SkipPanicsExactly(d);
    if !IsGroup(d) {
      SkipsLeaf(d);
    }
  }

  lemma SkipRange(d: Bytes)
    requires |d| <= MAX_INT
    ensures Skip(d).Skipped? ==> -MAX_INT - 1 <= Skip(d).n <= MAX_INT
    ensures Skip(d).Skipped? ==> 1 <= Skip(d).n || Skip(d).n + MAX_INT + 2 <= |d|
    ensures Skip(d).Skipped? && IsGroup(d) ==> 1 <= Skip(d).n <= |d|
    ensures Skip(d).Skipped? ==> ReadVarint(d).Good?
    ensures d == [] ==> ReadVarint(d).Bad?
  {
  }

  /** One turn of the parser, told by where its field ends; only an end outside the buffer depends on base. */
  lemma TurnByReach(d: Bytes, base: nat, m: Message)
    requires d != [] && base + |d| <= MAX_INT
    ensures var r, turn := FieldReach(d), DecodeField(d, base, m);
            if r == 0 then turn.Halted? && turn.outcome.Failed? && turn == DecodeField(d, 0, m)
            else if r <= |d| then turn.Consumed? && turn.n == r && turn == DecodeField(d, 0, m)
            else turn == Halted(if base + r <= MAX_INT then Failed(UnexpectedEOF) else Panicked)
  {
    hide ReadVarint, Skip, GroupReach;
    SkipRange(d);
    SkipPanicsExactly(d);
  }

  /** Unmarshal at position base panics exactly when a declared end does not fit in an int. */
  lemma {:induction false} DecodePanicsExactly(d: Bytes, base: nat, m: Message)
    requires base + |d| <= MAX_INT
    ensures Decode(d, base, m).outcome == Panicked <==> base + Reach(d) > MAX_INT
    decreases |d|
  {
    hide DecodeField, FieldReach;
    if d != [] {
      TurnByReach(d, base, m);
      var r := FieldReach(d);
      if 0 < r <= |d| {
        DecodePanicsExactly(d[r..], base + r, DecodeField(d, base, m).message);
      }
    }
  }

  /**
    Where in a buffer a message part lies does not matter to what it decodes to, except that an
    overlong field can be a clean end-of-input error at one position and a panic at a later one.
   */
  lemma {:induction false} DecodeMoved(d: Bytes, base: nat, shift: nat, m: Message)
    requires base + shift + |d| <= MAX_INT
    ensures var here, there := Decode(d, base, m), Decode(d, base + shift, m);
            && here.message == there.message
            && (here == there <==> !(base + Reach(d) <= MAX_INT < base + shift + Reach(d)))
            && (here != there ==> here.outcome == Failed(UnexpectedEOF) && there.outcome == Panicked)
    decreases |d|
  {
    hide DecodeField, FieldReach;
    if d != [] {
      TurnByReach(d, base, m);
      TurnByReach(d, base + shift, m);
      var r := FieldReach(d);
      if 0 < r <= |d| {
        DecodeMoved(d[r..], base + r, shift, DecodeField(d, base, m).message);
      }
    }
  }

  // ---------------------------------------------------------------- a bound on declared lengths

  function Max(a: nat, b: nat): nat {
    if a < b then b else a
  }

  /** The length that a field of wire type 2 declares; 0 for other fields and for a negative length. */
  function LeafLength(d: Bytes): nat {
    match ReadVarint(d)
    case Bad(_) => 0
    case Good(tag, i) =>
      if WireType(tag) != 2 || ReadVarint(d[i..]).Bad? || ToInt64(ReadVarint(d[i..]).value) < 0 then 0
      else ToInt64(ReadVarint(d[i..]).value)
  }

  /** The largest length declared inside the group at the front of d, as far as skipping it gets. */
  function GroupLength(d: Bytes): nat
    requires |d| <= MAX_INT
    decreases |d|, 0
  {
    if IsGroup(d) then MembersLength(d[ReadVarint(d).size..]) else 0
  }

  function MembersLength(d: Bytes): nat
    requires |d| <= MAX_INT
    decreases |d|, 1
  {
    if ReadVarint(d).Bad? || WireType(ReadVarint(d).value) == 4 then 0
    else
      var first := if IsGroup(d) then GroupLength(d) else LeafLength(d);
      if Skip(d).Skipped? && 1 <= Skip(d).n <= |d| then Max(first, MembersLength(d[Skip(d).n..])) else first
  }

  /** The largest length declared by any field that decoding d reads, members of groups included. */
  function DeclaredLength(d: Bytes): nat
    requires |d| <= MAX_INT
    decreases |d|
  {
    if d == [] then 0
    else
      var first := if IsGroup(d) then GroupLength(d) else LeafLength(d);
      if 0 < FieldReach(d) <= |d| then Max(first, DeclaredLength(d[FieldReach(d)..])) else first
  }

  lemma LeafWithin(d: Bytes)
    requires d != [] && |d| <= MAX_INT && !IsGroup(d)
    ensures LeafEnd(d) <= |d| + Max(8, LeafLength(d))
    ensures ReadVarint(d).Good? && WireType(ReadVarint(d).value) == 2 ==> StringEnd(d, ReadVarint(d).size) <= |d| + LeafLength(d)
  {
    hide ReadVarint;
  }

  lemma {:induction false} GroupReachWithin(d: Bytes)
    requires |d| <= MAX_INT
    ensures GroupReach(d) <= |d| + Max(8, GroupLength(d))
    decreases |d|, 0
  {
    hide ReadVarint, MembersReach, MembersLength;
    if IsGroup(d) {
      var i := ReadVarint(d).size;
      MembersReachWithin(d[i..], i);
    }
  }

  lemma {:induction false} MembersReachWithin(d: Bytes, off: nat)
    requires 1 <= off && off + |d| <= MAX_INT
    ensures MembersReach(d, off) <= off + |d| + Max(8, MembersLength(d))
    decreases |d|, 1
  {
    hide ReadVarint, Skip, GroupReach, GroupLength, LeafEnd, LeafLength;
    if ReadVarint(d).Good? && WireType(ReadVarint(d).value) != 4 {
      SkipRange(d);
      if IsGroup(d) {
        GroupReachWithin(d);
      } else {
        LeafWithin(d);
        SkipsLeaf(d);
      }
      if Skip(d).Skipped? && 1 <= Skip(d).n <= |d| {
        ReachTurn(d, off, Skip(d).n);
        MembersReachWithin(d[Skip(d).n..], off + Skip(d).n);
      }
    }
  }

  lemma FieldReachWithin(d: Bytes)
    requires d != [] && |d| <= MAX_INT
    ensures FieldReach(d) <= |d| + Max(8, if IsGroup(d) then GroupLength(d) else LeafLength(d))
  {
    hide ReadVarint, Skip, MembersReach, MembersLength, LeafEnd, LeafLength, StringEnd;
    SkipRange(d);
    if IsGroup(d) {
      GroupReachWithin(d);
    } else {
      LeafWithin(d);
      SkipsLeaf(d);
    }
  }

  /** However fields nest, no end lies farther than the input and the largest declared length together. */
  lemma {:induction false} ReachWithin(d: Bytes)
    requires |d| <= MAX_INT
    ensures Reach(d) <= |d| + Max(8, DeclaredLength(d))
    decreases |d|
  {
    hide FieldReach, GroupLength, LeafLength;
    if d != [] {
      FieldReachWithin(d);
      var r := FieldReach(d);
      if 0 < r <= |d| {
        ReachWithin(d[r..]);
      }
    }
  }

  /**
    An input that, together with the largest length it declares, fits in an int is decoded without
    leaving the buffer: for instance when both are at most 2^62 and one of them is less.
   */
  lemma NoPanicWithinBounds(d: Bytes, m: Message)
    requires |d| <= MAX_INT && |d| + Max(8, DeclaredLength(d)) <= MAX_INT
    ensures Decode(d, 0, m).outcome != Panicked
  {
    hide Decode, Reach, DeclaredLength;
    ReachWithin(d);
    DecodePanicsExactly(d, 0, m);
  }
}
