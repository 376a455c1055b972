/**
  The middleware chain (middleware/middleware.go). A member handles some kinds of messages; for one
  message the chain filters the members that handle its kind and runs them in order until one
  rejects. Members keep state of their own, and may change the message and the context they share.
 */
module Middleware {
  import opened Machine

  datatype Kind = ConnectKind | DisconnectKind | UplinkKind | StatusKind | DownlinkKind

  datatype Message =
    | Connect(gatewayID: string, key: string)
    | Disconnect(gatewayID: string, key: string)
    | Uplink(gatewayID: string, payload: Bytes, timestamp: nat)
    | Status(gatewayID: string, body: Bytes)
    | Downlink(gatewayID: string, payload: Bytes)
  {
    function Kind(): Kind {
      match this
      case Connect(_, _) => ConnectKind
      case Disconnect(_, _) => DisconnectKind
      case Uplink(_, _, _) => UplinkKind
      case Status(_, _) => StatusKind
      case Downlink(_, _) => DownlinkKind
    }
  }

  /** A message on its way through the chain, with the context of this one execution. */
  datatype Envelope = Envelope(message: Message, context: map<string, string>)

  datatype Answer<S> = Answer(state: S, envelope: Envelope, accepted: bool)

  /** A member: the kinds it handles, and what it does with an envelope of such a kind. */
  datatype Member<!S> = Member(handles: set<Kind>, handle: (S, Envelope) -> Answer<S>)

  /** What one execution leaves: every member's state, the envelope, and the verdict. */
  datatype Execution<S> = Execution(states: seq<S>, envelope: Envelope, accepted: bool)

  /** One pass over the chain, members of other kinds standing aside. */
  function RunChain<S>(members: seq<Member<S>>, states: seq<S>, kind: Kind, e: Envelope): (x: Execution<S>)
    requires |states| == |members|
    ensures |x.states| == |members|
    decreases |members|
  {
    if members == [] then Execution([], e, true)
    else if kind !in members[0].handles then
      var x := RunChain(members[1..], states[1..], kind, e);
      x.(states := [states[0]] + x.states)
    else
      var a := members[0].handle(states[0], e);
      if !a.accepted then Execution([a.state] + states[1..], a.envelope, false)
      else
        var x := RunChain(members[1..], states[1..], kind, a.envelope);
        x.(states := [a.state] + x.states)
  }

  /** A member alone: of another kind it stands aside, of this kind it answers. */
  lemma RunsOne<S>(member: Member<S>, state: S, kind: Kind, e: Envelope)
    ensures RunChain([member], [state], kind, e) ==
            if kind !in member.handles then Execution([state], e, true)
            else
              var a := member.handle(state, e);
              Execution([a.state], a.envelope, a.accepted)
  {
  }

  /** What two parts of a chain leave, one behind the other: a rejection keeps the second part from running. */
  function Joined<S>(x: Execution<S>, t: seq<S>, y: Execution<S>): Execution<S> {
    if x.accepted then Execution(x.states + y.states, y.envelope, y.accepted)
    else Execution(x.states + t, x.envelope, false)
  }

  /** A rejection ends the execution with all later members as they were; otherwise they go on with the envelope. */
  lemma {:induction false} RunsInOrder<S>(front: seq<Member<S>>, back: seq<Member<S>>, s: seq<S>, t: seq<S>, kind: Kind, e: Envelope)
    requires |s| == |front| && |t| == |back|
    ensures var x := RunChain(front, s, kind, e);
            RunChain(front + back, s + t, kind, e) == Joined(x, t, RunChain(back, t, kind, x.envelope))
    decreases |front|
  {
    hide Joined;
    if front == [] {
      assert front + back == back && s + t == t;
      JoinedToNothing(t, e, RunChain(back, t, kind, e));
    } else {
      RunsFirst(front, s, kind, e);
      RunsFirst(front + back, s + t, kind, e);
      hide RunChain;
      var a := front[0].handle(s[0], e);
      assert (front + back)[1..] == front[1..] + back && (s + t)[1..] == s[1..] + t;
      var e' := if kind in front[0].handles then a.envelope else e;
      RunsInOrder(front[1..], back, s[1..], t, kind, e');
      var x := RunChain(front[1..], s[1..], kind, e');
      JoinedPrepends(if kind in front[0].handles then a.state else s[0], x, t, RunChain(back, t, kind, x.envelope));
      JoinedAfterRejection(a.state, s[1..], t, e', RunChain(back, t, kind, e'));
    }
  }

  lemma JoinedToNothing<S>(t: seq<S>, e: Envelope, y: Execution<S>)
    ensures Joined(Execution([], e, true), t, y) == y
  {
    assert [] + y.states == y.states;
  }

  lemma JoinedPrepends<S>(state: S, x: Execution<S>, t: seq<S>, y: Execution<S>)
    ensures var z := Joined(x, t, y); Joined(x.(states := [state] + x.states), t, y) == z.(states := [state] + z.states)
  {
    assert ([state] + x.states) + t == [state] + (x.states + t);
    assert ([state] + x.states) + y.states == [state] + (x.states + y.states);
  }

  lemma JoinedAfterRejection<S>(state: S, s: seq<S>, t: seq<S>, e: Envelope, y: Execution<S>)
    ensures Joined(Execution([state] + s, e, false), t, y) == Execution([state] + (s + t), e, false)
  {
    assert ([state] + s) + t == [state] + (s + t);
  }

  lemma RunsFirst<S>(members: seq<Member<S>>, states: seq<S>, kind: Kind, e: Envelope)
    requires |states| == |members| > 0
    ensures var handled, a := kind in members[0].handles, members[0].handle(states[0], e);
            var state, e' := if handled then a.state else states[0], if handled then a.envelope else e;
            var x := RunChain(members[1..], states[1..], kind, e');
            RunChain(members, states, kind, e) ==
            if handled && !a.accepted then Execution([state] + states[1..], e', false)
            else x.(states := [state] + x.states)
  {
  }

  /** The envelope with which an execution reaches member d, if it does. */
  datatype Arrival = Arrives(envelope: Envelope) | StoppedBefore

  function ArrivalAt<S>(members: seq<Member<S>>, states: seq<S>, kind: Kind, e: Envelope, d: nat): Arrival
    requires |states| == |members| && d < |members|
    decreases d
  {
    if d == 0 then Arrives(e)
    else if kind !in members[0].handles then ArrivalAt(members[1..], states[1..], kind, e, d - 1)
    else
      var a := members[0].handle(states[0], e);
      if !a.accepted then StoppedBefore else ArrivalAt(members[1..], states[1..], kind, a.envelope, d - 1)
  }

  /**
    In an execution, member d answers the envelope that reaches it from its own state, if it
    handles the kind, and keeps its state otherwise: also when an earlier member rejects.
   */
  lemma {:induction false} MemberAnswersItsArrival<S>(members: seq<Member<S>>, states: seq<S>, kind: Kind, e: Envelope, d: nat)
    requires |states| == |members| && d < |members|
    ensures RunChain(members, states, kind, e).states[d] ==
            match ArrivalAt(members, states, kind, e, d)
            case StoppedBefore => states[d]
            case Arrives(e') => if kind in members[d].handles then members[d].handle(states[d], e').state else states[d]
    decreases d
  {
    if d > 0 {
      var e' := if kind in members[0].handles then members[0].handle(states[0], e).envelope else e;
      MemberAnswersItsArrival(members[1..], states[1..], kind, e', d - 1);
    }
  }

  /** The chain accepts exactly when every member that handles the kind is reached and accepts. */
  lemma {:induction false} AcceptedByAll<S>(members: seq<Member<S>>, states: seq<S>, kind: Kind, e: Envelope)
    requires |states| == |members|
    ensures RunChain(members, states, kind, e).accepted <==>
            forall d | 0 <= d < |members| && kind in members[d].handles ::
              var at := ArrivalAt(members, states, kind, e, d);
              at.Arrives? && members[d].handle(states[d], at.envelope).accepted
    decreases |members|
  {
    if members != [] {
      var handled := kind in members[0].handles;
      var a := members[0].handle(states[0], e);
      var e' := if handled then a.envelope else e;
      var all := forall d | 0 <= d < |members| && kind in members[d].handles ::
                   var at := ArrivalAt(members, states, kind, e, d);
                   at.Arrives? && members[d].handle(states[d], at.envelope).accepted;
      AcceptedByAll(members[1..], states[1..], kind, e');
      if handled && !a.accepted {
        assert ArrivalAt(members, states, kind, e, 0) == Arrives(e);
        assert !all;
      } else {
        assert handled ==> ArrivalAt(members, states, kind, e, 0) == Arrives(e);
        assert forall d | 0 < d < |members| ::
                 ArrivalAt(members, states, kind, e, d) == ArrivalAt(members[1..], states[1..], kind, e', d - 1);
        if all {
          forall d | 0 <= d < |members[1..]| && kind in members[1..][d].handles
            ensures var at := ArrivalAt(members[1..], states[1..], kind, e', d);
                    at.Arrives? && members[1..][d].handle(states[1..][d], at.envelope).accepted
          {
            assert kind in members[d + 1].handles;
            assert ArrivalAt(members, states, kind, e, d + 1) == ArrivalAt(members[1..], states[1..], kind, e', d);
          }
        }
      }
    }
  }

  // ---------------------------------------------------------------- the code

  class Chain<S> {
    const members: seq<Member<S>>
    const states: array<S>

    constructor (members: seq<Member<S>>, states: array<S>)
      requires states.Length == |members|
      ensures this.members == members && this.states == states
    {
      this.members, this.states := members, states;
    }

    /** filterConnect and its siblings: the members of a kind, in the order of the chain. */
    method Filter(kind: Kind) returns (filtered: seq<nat>)
      ensures filtered == Handlers(members, kind, |members|)
    {
      filtered := [];
      for i := 0 to |members|
        invariant filtered == Handlers(members, kind, i)
      {
        if kind in members[i].handles {
          filtered := filtered + [i];
        }
      }
    }

    /** The members of one kind were run on the message, from the given states to the present ones. */
    ghost predicate Ran(kind: Kind, message: Message, before: seq<S>, accepted: bool)
      requires |before| == |members|
      reads states
    {
      var x := RunChain(members, before, kind, Envelope(message, map[]));
      states[..] == x.states && accepted == x.accepted
    }

    /** Execute of the chain, through the typed chain of the message's kind. */
    method Execute(message: Message) returns (accepted: bool)
      requires states.Length == |members|
      modifies states
      ensures var x := RunChain(members, old(states[..]), message.Kind(), Envelope(message, map[]));
              states[..] == x.states && accepted == x.accepted
      ensures message.Connect? ==> Ran(ConnectKind, message, old(states[..]), accepted)
      ensures message.Disconnect? ==> Ran(DisconnectKind, message, old(states[..]), accepted)
      ensures message.Uplink? ==> Ran(UplinkKind, message, old(states[..]), accepted)
      ensures message.Status? ==> Ran(StatusKind, message, old(states[..]), accepted)
      ensures message.Downlink? ==> Ran(DownlinkKind, message, old(states[..]), accepted)
    {
      var kind := message.Kind();
      var filtered := Filter(kind);
      var e := Envelope(message, map[]);
      hide RunChain, Ahead, Handlers;
      HandlersAreExact(members, kind, |members|);
      AheadBounds(members, states[..], kind, e);
      ghost var from := 0;
      ghost var expected := RunChain(members, states[..], kind, e);
      var i := 0;
      while i < |filtered|
        invariant 0 <= i <= |filtered| && from <= |members|
        invariant forall d | from <= d < |members| && kind in members[d].handles :: d in filtered[i..]
        invariant forall j | i <= j < |filtered| :: from <= filtered[j]
        invariant Ahead(members, states[..], kind, e, from) == expected
      {
        var d := filtered[i];
        assert d in filtered && filtered[i..] == [d] + filtered[i + 1..];
        SkipIdle(members, states[..], kind, e, from, d);
        ghost var before := states[..];
        var a := members[d].handle(states[d], e);
        states[d] := a.state;
        assert states[..] == before[d := a.state];
        TakeOne(members, before, kind, e, d);
        if !a.accepted {
          return false;
        }
        e := a.envelope;
        from := d + 1;
        i := i + 1;
      }
      SkipIdle(members, states[..], kind, e, from, |members|);
      AheadBounds(members, states[..], kind, e);
      return true;
    }
  }

  /** The indices below n of members that handle the kind. */
  function Handlers<S>(members: seq<Member<S>>, kind: Kind, n: nat): seq<nat>
    requires n <= |members|
  {
    if n == 0 then [] else Handlers(members, kind, n - 1) + if kind in members[n - 1].handles then [n - 1] else []
  }

  lemma {:induction false} HandlersAreExact<S>(members: seq<Member<S>>, kind: Kind, n: nat)
    requires n <= |members|
    ensures var h := Handlers(members, kind, n);
            && (forall d: nat :: d in h <==> d < n && kind in members[d].handles)
            && (forall j, k | 0 <= j < k < |h| :: h[j] < h[k])
  {
    if n > 0 {
      HandlersAreExact(members, kind, n - 1);
      var g, h := Handlers(members, kind, n - 1), Handlers(members, kind, n);
      assert h == if kind in members[n - 1].handles then g + [n - 1] else g;
      hide Handlers;
      forall j, k | 0 <= j < k < |h| ensures h[j] < h[k] {
        assert g[j] in g;
      }
    }
  }

  /** The rest of an execution that stands before member `from`. */
  function Ahead<S>(members: seq<Member<S>>, states: seq<S>, kind: Kind, e: Envelope, from: nat): Execution<S>
    requires |states| == |members| && from <= |members|
  {
    var x := RunChain(members[from..], states[from..], kind, e);
    x.(states := states[..from] + x.states)
  }

  lemma AheadBounds<S>(members: seq<Member<S>>, states: seq<S>, kind: Kind, e: Envelope)
    requires |states| == |members|
    ensures Ahead(members, states, kind, e, 0) == RunChain(members, states, kind, e)
    ensures Ahead(members, states, kind, e, |members|) == Execution(states, e, true)
  {
  }

  /** Members of other kinds are passed over. */
  lemma {:induction false} SkipIdle<S>(members: seq<Member<S>>, states: seq<S>, kind: Kind, e: Envelope, from: nat, until: nat)
    requires |states| == |members| && from <= until <= |members|
    requires forall d | from <= d < until :: kind !in members[d].handles
    ensures Ahead(members, states, kind, e, from) == Ahead(members, states, kind, e, until)
    decreases until - from
  {
    if from < until {
      assert members[from..][1..] == members[from + 1..] && states[from..][1..] == states[from + 1..];
      assert states[..from + 1] == states[..from] + [states[from]];
      SkipIdle(members, states, kind, e, from + 1, until);
    }
  }

  lemma TakeOne<S>(members: seq<Member<S>>, states: seq<S>, kind: Kind, e: Envelope, d: nat)
    requires |states| == |members| && d < |members| && kind in members[d].handles
    ensures var a := members[d].handle(states[d], e);
            var states' := states[d := a.state];
            Ahead(members, states, kind, e, d) ==
            if a.accepted then Ahead(members, states', kind, a.envelope, d + 1)
            else Execution(states', a.envelope, false)
  {
  }
}
