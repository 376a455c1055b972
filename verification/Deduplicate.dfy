/**
  The deduplicator (middleware/deduplicate/deduplicate.go): it remembers the last uplink it let
  through for each gateway and refuses one with the same payload and timestamp. Between two
  disconnects of a gateway it lets through the gateway's uplinks with adjacent repeats removed.
 */
module Deduplicate {
  import opened Middleware

  type Seen = map<string, Message>

  predicate Same(a: Message, b: Message) {
    a.Uplink? && b.Uplink? && a.payload == b.payload && a.timestamp == b.timestamp
  }

  ghost predicate OnlyUplinks(seen: Seen) {
    forall g | g in seen :: seen[g].Uplink?
  }

  /** HandleUplink and HandleDisconnect; the chain offers no other kinds. */
  function Handle(seen: Seen, m: Message): (Seen, bool) {
    match m
    case Uplink(g, payload, timestamp) =>
      if g in seen && Same(m, seen[g]) then (seen, false) else (seen[g := m], true)
    case Disconnect(g, _) => (seen - {g}, true)
    case _ => (seen, true)
  }

  function After(messages: seq<Message>): Seen {
    if messages == [] then map[] else Handle(After(messages[..|messages| - 1]), messages[|messages| - 1]).0
  }

  /** The uplinks of g since its last disconnect. */
  function Session(messages: seq<Message>, g: string): seq<Message> {
    if messages == [] then []
    else
      var before, m := messages[..|messages| - 1], messages[|messages| - 1];
      if m.Uplink? && m.gatewayID == g then Session(before, g) + [m]
      else if m.Disconnect? && m.gatewayID == g then []
      else Session(before, g)
  }

  /** Those of them that were let through. */
  function Accepted(messages: seq<Message>, g: string): seq<Message> {
    if messages == [] then []
    else
      var before, m := messages[..|messages| - 1], messages[|messages| - 1];
      if m.Uplink? && m.gatewayID == g then Accepted(before, g) + if Handle(After(before), m).1 then [m] else []
      else if m.Disconnect? && m.gatewayID == g then []
      else Accepted(before, g)
  }

  /** A string of uplinks with repeats of the one just before left out. */
  function Destutter(s: seq<Message>): seq<Message> {
    if |s| <= 1 then s
    else Destutter(s[..|s| - 1]) + if Same(s[|s| - 1], s[|s| - 2]) then [] else [s[|s| - 1]]
  }

  /** What is remembered of a gateway equals the last uplink of its session. */
  lemma {:induction false} RemembersTheLast(messages: seq<Message>, g: string)
    ensures var s, seen := Session(messages, g), After(messages);
            && (g in seen <==> s != [])
            && (s != [] ==> seen[g].Uplink? && s[|s| - 1].Uplink? && Same(seen[g], s[|s| - 1]))
  {
    if messages != [] {
      RemembersTheLast(messages[..|messages| - 1], g);
    }
  }

  lemma DestutterAppend(s: seq<Message>, m: Message)
    ensures Destutter(s + [m]) == Destutter(s) + if s != [] && Same(m, s[|s| - 1]) then [] else [m]
  {
    assert (s + [m])[..|s|] == s;
  }

  /** The verdict on an uplink depends only on the end of its gateway's session. */
  lemma RefusesRepeats(messages: seq<Message>, m: Message)
    requires m.Uplink?
    ensures var s := Session(messages, m.gatewayID);
            Handle(After(messages), m).1 <==> s == [] || !Same(m, s[|s| - 1])
  {
    RemembersTheLast(messages, m.gatewayID);
  }

  /** At every point of every run, a gateway's accepted uplinks are its session, destuttered. */
  lemma {:induction false} AcceptsTheDestuttered(messages: seq<Message>, g: string)
    ensures Accepted(messages, g) == Destutter(Session(messages, g))
  {
    if messages != [] {
      hide After, Handle, Destutter;
      var before, m := messages[..|messages| - 1], messages[|messages| - 1];
      AcceptsTheDestuttered(before, g);
      if m.Uplink? && m.gatewayID == g {
        RefusesRepeats(before, m);
        DestutterAppend(Session(before, g), m);
      } else {
        DestutterNothing();
      }
    } else {
      DestutterNothing();
    }
  }

  lemma DestutterNothing()
    ensures Destutter([]) == []
  {
  }

  // ---------------------------------------------------------------- inside a chain

  /** What a member of a chain may hold: the deduplicator's memory, or anything else. */
  datatype Held<S> = Dedup(seen: Seen) | Foreign(state: S)

  function HandleHeld<S>(h: Held<S>, e: Envelope): Answer<Held<S>> {
    if h.Dedup? then
      var (seen, ok) := Handle(h.seen, e.message);
      Answer(Dedup(seen), e, ok)
    else Answer(h, e, true)
  }

  ghost predicate HasDedupAt<S(!new)>(members: seq<Member<Held<S>>>, d: nat) {
    && d < |members|
    && members[d].handles == {UplinkKind, DisconnectKind}
    && forall h, e :: members[d].handle(h, e) == HandleHeld(h, e)
  }

  /** The states of the chain after a run of messages. */
  function RunAll<S>(members: seq<Member<Held<S>>>, init: seq<Held<S>>, messages: seq<Message>): (states: seq<Held<S>>)
    requires |init| == |members|
    ensures |states| == |members|
  {
    if messages == [] then init
    else
      var states := RunAll(members, init, messages[..|messages| - 1]);
      var m := messages[|messages| - 1];
      RunChain(members, states, m.Kind(), Envelope(m, map[])).states
  }

  /** The messages that reach member d in a run, as they are by then. */
  function Reaching<S>(members: seq<Member<Held<S>>>, init: seq<Held<S>>, messages: seq<Message>, d: nat): seq<Message>
    requires |init| == |members| && d < |members|
  {
    if messages == [] then []
    else
      var before, m := messages[..|messages| - 1], messages[|messages| - 1];
      var at := ArrivalAt(members, RunAll(members, init, before), m.Kind(), Envelope(m, map[]), d);
      Reaching(members, init, before, d) +
      if at.Arrives? && m.Kind() in members[d].handles then [at.envelope.message] else []
  }

  /** Inside any chain, the deduplicator is what it would be alone on the messages that reach it. */
  lemma {:induction false} DedupSeesWhatReachesIt<S(!new)>(members: seq<Member<Held<S>>>, init: seq<Held<S>>, messages: seq<Message>, d: nat)
    requires |init| == |members| && HasDedupAt(members, d) && init[d] == Dedup(map[])
    ensures RunAll(members, init, messages)[d] == Dedup(After(Reaching(members, init, messages, d)))
  {
    if messages != [] {
      hide RunChain, ArrivalAt, Handle;
      var before, m := messages[..|messages| - 1], messages[|messages| - 1];
      DedupSeesWhatReachesIt(members, init, before, d);
      var states := RunAll(members, init, before);
      MemberAnswersItsArrival(members, states, m.Kind(), Envelope(m, map[]), d);
      var r := Reaching(members, init, before, d);
      var at := ArrivalAt(members, states, m.Kind(), Envelope(m, map[]), d);
      if at.Arrives? && m.Kind() in members[d].handles {
        AfterAppend(r, at.envelope.message);
        assert members[d].handle(states[d], at.envelope) == HandleHeld(states[d], at.envelope);
      } else {
        assert Reaching(members, init, messages, d) == r;
      }
    }
  }

  lemma AfterAppend(messages: seq<Message>, m: Message)
    ensures After(messages + [m]) == Handle(After(messages), m).0
  {
    assert (messages + [m])[..|messages|] == messages;
  }

  /**
    In a chain, the next uplink that reaches the deduplicator is refused there exactly when its
    gateway's session, among the messages that reached it, ends in an equal uplink.
   */
  lemma RefusesExactlyRepeats<S(!new)>(members: seq<Member<Held<S>>>, init: seq<Held<S>>, messages: seq<Message>, d: nat, e: Envelope)
    requires |init| == |members| && HasDedupAt(members, d) && init[d] == Dedup(map[]) && e.message.Uplink?
    ensures var s := Session(Reaching(members, init, messages, d), e.message.gatewayID);
            var answer := members[d].handle(RunAll(members, init, messages)[d], e);
            (answer.accepted <==> s == [] || !Same(e.message, s[|s| - 1]))
  {
    hide After, Handle;
    DedupSeesWhatReachesIt(members, init, messages, d);
    RefusesRepeats(Reaching(members, init, messages, d), e.message);
  }

  /** The uplinks of g since its last disconnect that reached member d and that it let through. */
  function Passed<S>(members: seq<Member<Held<S>>>, init: seq<Held<S>>, messages: seq<Message>, d: nat, g: string): seq<Message>
    requires |init| == |members| && d < |members|
  {
    if messages == [] then []
    else
      var before, m := messages[..|messages| - 1], messages[|messages| - 1];
      var states, passed := RunAll(members, init, before), Passed(members, init, before, d, g);
      match ArrivalAt(members, states, m.Kind(), Envelope(m, map[]), d)
      case StoppedBefore => passed
      case Arrives(e) =>
        if m.Kind() !in members[d].handles || e.message.gatewayID != g then passed
        else if e.message.Uplink? then passed + if members[d].handle(states[d], e).accepted then [e.message] else []
        else if e.message.Disconnect? then []
        else passed
  }

  /** Inside any chain, what the deduplicator lets through is what reaches it, destuttered. */
  lemma ChainDestutters<S(!new)>(members: seq<Member<Held<S>>>, init: seq<Held<S>>, messages: seq<Message>, d: nat, g: string)
    requires |init| == |members| && HasDedupAt(members, d) && init[d] == Dedup(map[])
    ensures Passed(members, init, messages, d, g) == Destutter(Session(Reaching(members, init, messages, d), g))
  {
    AcceptsTheDestuttered(Reaching(members, init, messages, d), g);
    PassedIsAccepted(members, init, messages, d, g);
  }

  lemma {:induction false} PassedIsAccepted<S(!new)>(members: seq<Member<Held<S>>>, init: seq<Held<S>>, messages: seq<Message>, d: nat, g: string)
    requires |init| == |members| && HasDedupAt(members, d) && init[d] == Dedup(map[])
    ensures Passed(members, init, messages, d, g) == Accepted(Reaching(members, init, messages, d), g)
  {
    if messages != [] {
      hide RunAll, ArrivalAt, Handle, After;
      var before, m := messages[..|messages| - 1], messages[|messages| - 1];
      PassedIsAccepted(members, init, before, d, g);
      var states, r := RunAll(members, init, before), Reaching(members, init, before, d);
      DedupSeesWhatReachesIt(members, init, before, d);
      var at := ArrivalAt(members, states, m.Kind(), Envelope(m, map[]), d);
      if at.Arrives? && m.Kind() in members[d].handles {
        assert Reaching(members, init, messages, d) == r + [at.envelope.message];
        assert (r + [at.envelope.message])[..|r|] == r;
        assert members[d].handle(states[d], at.envelope) == HandleHeld(states[d], at.envelope);
      } else {
        assert Reaching(members, init, messages, d) == r;
      }
    }
  }

  // ---------------------------------------------------------------- a repeat does not get through

  /** The members before d accept everything and change nothing. */
  ghost predicate LetsThrough<S(!new)>(members: seq<Member<Held<S>>>, d: nat) {
    d <= |members| && forall i, h, e | 0 <= i < d :: members[i].handle(h, e) == Answer(h, e, true)
  }

  lemma {:induction false} PassesThrough<S(!new)>(members: seq<Member<Held<S>>>, states: seq<Held<S>>, kind: Kind, e: Envelope, d: nat)
    requires |states| == |members| && LetsThrough(members, d)
    ensures d < |members| ==> ArrivalAt(members, states, kind, e, d) == Arrives(e)
    ensures RunChain(members[..d], states[..d], kind, e) == Execution(states[..d], e, true)
    decreases d
  {
    if d > 0 {
      assert members[0].handle(states[0], e) == Answer(states[0], e, true);
      PassesThrough(members[1..], states[1..], kind, e, d - 1);
      assert members[..d][1..] == members[1..][..d - 1] && states[..d][1..] == states[1..][..d - 1];
      assert states[..d] == [states[0]] + states[1..][..d - 1];
    }
  }

  lemma {:induction false} EverythingReaches<S(!new)>(members: seq<Member<Held<S>>>, init: seq<Held<S>>, messages: seq<Message>, d: nat, g: string)
    requires |init| == |members| && HasDedupAt(members, d) && LetsThrough(members, d)
    ensures Session(Reaching(members, init, messages, d), g) == Session(messages, g)
  {
    if messages != [] {
      hide RunAll, RunChain, ArrivalAt;
      var before, m := messages[..|messages| - 1], messages[|messages| - 1];
      EverythingReaches(members, init, before, d, g);
      PassesThrough(members, RunAll(members, init, before), m.Kind(), Envelope(m, map[]), d);
      var r := Reaching(members, init, before, d);
      if m.Uplink? || m.Disconnect? {
        assert Reaching(members, init, messages, d) == r + [m];
        assert (r + [m])[..|r|] == r;
      } else {
        assert Reaching(members, init, messages, d) == r;
      }
    }
  }

  /** The uplink has payload and timestamp of the last one of its gateway's session. */
  predicate Repeats(messages: seq<Message>, m: Message)
    requires m.Uplink?
  {
    var s := Session(messages, m.gatewayID);
    s != [] && s[|s| - 1].Uplink? && s[|s| - 1].payload == m.payload && s[|s| - 1].timestamp == m.timestamp
  }

  /**
    In a chain whose members before the deduplicator accept and change nothing, an uplink that repeats
    the last one of its gateway's session is refused, and no member changes its state. With the
    deduplicator as last member, every other uplink is accepted.
   */
  lemma ChainRefusesRepeats<S(!new)>(members: seq<Member<Held<S>>>, init: seq<Held<S>>, messages: seq<Message>, d: nat, m: Message)
    requires |init| == |members| && HasDedupAt(members, d) && LetsThrough(members, d) && init[d] == Dedup(map[])
    requires m.Uplink?
    ensures var states := RunAll(members, init, messages);
            var x := RunChain(members, states, UplinkKind, Envelope(m, map[]));
            && (Repeats(messages, m) ==> !x.accepted && x.states == states)
            && (d == |members| - 1 ==> (x.accepted <==> !Repeats(messages, m)))
  {
    hide RunAll, RunChain, Session, Reaching, Handle, After;
    var states, e := RunAll(members, init, messages), Envelope(m, map[]);
    var r := Reaching(members, init, messages, d);
    EverythingReaches(members, init, messages, d, m.gatewayID);
    DedupSeesWhatReachesIt(members, init, messages, d);
    RefusesRepeats(r, m);
    EndsInUplink(messages, m.gatewayID);
    AnswersAlone(members, states, UplinkKind, e, d);
    HandleRefusing(After(r), m);
    assert members[d].handle(states[d], e) == HandleHeld(states[d], e);
    assert states[d := states[d]] == states;
  }

  /** Behind members that let everything through, a rejection of member d is that of the chain. */
  lemma AnswersAlone<S(!new)>(members: seq<Member<Held<S>>>, states: seq<Held<S>>, kind: Kind, e: Envelope, d: nat)
    requires |states| == |members| && d < |members| && LetsThrough(members, d) && kind in members[d].handles
    ensures var a, x := members[d].handle(states[d], e), RunChain(members, states, kind, e);
            && (!a.accepted ==> x == Execution(states[d := a.state], a.envelope, false))
            && (a.accepted && d == |members| - 1 ==> x.accepted)
  {
    PassesThrough(members, states, kind, e, d);
    assert members == members[..d] + members[d..] && states == states[..d] + states[d..];
    RunsInOrder(members[..d], members[d..], states[..d], states[d..], kind, e);
    RunsFirst(members[d..], states[d..], kind, e);
    var a := members[d].handle(states[d], e);
    assert states[d := a.state] == states[..d] + ([a.state] + states[d..][1..]);
  }

  lemma HandleRefusing(seen: Seen, m: Message)
    ensures m.Uplink? && !Handle(seen, m).1 ==> Handle(seen, m).0 == seen
  {
  }

  lemma {:induction false} EndsInUplink(messages: seq<Message>, g: string)
    ensures var s := Session(messages, g); s != [] ==> s[|s| - 1].Uplink?
  {
    if messages != [] {
      EndsInUplink(messages[..|messages| - 1], g);
    }
  }

  // ---------------------------------------------------------------- the code

  class Deduplicator {
    var lastMessage: Seen

    constructor ()
      ensures lastMessage == map[]
    {
      lastMessage := map[];
    }

    method HandleUplink(m: Message) returns (accepted: bool)
      requires m.Uplink? && OnlyUplinks(lastMessage)
      modifies this
      ensures (lastMessage, accepted) == Handle(old(lastMessage), m)
      ensures OnlyUplinks(lastMessage)
      ensures accepted <==>
              !(m.gatewayID in old(lastMessage) && old(lastMessage)[m.gatewayID].payload == m.payload
                && old(lastMessage)[m.gatewayID].timestamp == m.timestamp)
      ensures lastMessage == if accepted then old(lastMessage)[m.gatewayID := m] else old(lastMessage)
    {
      if m.gatewayID in lastMessage {
        var last := lastMessage[m.gatewayID];
        if m.payload == last.payload && m.timestamp == last.timestamp {
          return false;
        }
      }
      lastMessage := lastMessage[m.gatewayID := m];
      return true;
    }

    method HandleDisconnect(m: Message)
      requires m.Disconnect? && OnlyUplinks(lastMessage)
      modifies this
      ensures lastMessage == Handle(old(lastMessage), m).0 && OnlyUplinks(lastMessage)
    {
      lastMessage := lastMessage - {m.gatewayID};
    }
  }
}
