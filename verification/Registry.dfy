/**
  The gateway registry of the packet forwarder backend (the `gateways` type in
  backend/pktfwd/backend.go): `set` announces a gateway that is new, `cleanup` announces and drops
  the ones that were not seen for a session. A callback that fails stops the operation.
 */
module Registry {
  import opened Machine
  import opened Euis
  import SourceLocks

  /** Where the last PULL_DATA came from, when, and its protocol version. */
  datatype Gateway = Gateway(addr: SourceLocks.Addr, lastSeen: int, version: Byte)

  /** A callback that succeeded. */
  datatype Event = New(mac: Eui) | Deleted(mac: Eui)

  datatype Table = Table(entries: map<Eui, Gateway>, log: seq<Event>)

  /** What the range over the map meets: a key, the clock reading, and what onDelete would answer. */
  datatype Visit = Visit(mac: Eui, now: int, accepted: bool)

  const EMPTY := Table(map[], [])

  // ---------------------------------------------------------------- specification

  function Store(t: Table, mac: Eui, gateway: Gateway, accepted: bool): Table {
    if mac in t.entries then t.(entries := t.entries[mac := gateway])
    else if accepted then Table(t.entries[mac := gateway], t.log + [New(mac)])
    else t
  }

  predicate Expired(t: Table, session: int, v: Visit) {
    v.mac in t.entries && t.entries[v.mac].lastSeen < v.now - session
  }

  function Drop(t: Table, session: int, v: Visit): Table {
    if Expired(t, session, v) && v.accepted then Table(t.entries - {v.mac}, t.log + [Deleted(v.mac)]) else t
  }

  /** cleanup over the given visits; the first refused deletion ends it. */
  function Sweep(t: Table, session: int, visits: seq<Visit>): Table
    decreases |visits|
  {
    if visits == [] || (Expired(t, session, visits[0]) && !visits[0].accepted) then t
    else Sweep(Drop(t, session, visits[0]), session, visits[1..])
  }

  /** Whether a refused deletion ends the cleanup. */
  predicate Refused(t: Table, session: int, visits: seq<Visit>)
    decreases |visits|
  {
    visits != [] &&
    ((Expired(t, session, visits[0]) && !visits[0].accepted) || Refused(Drop(t, session, visits[0]), session, visits[1..]))
  }

  // ---------------------------------------------------------------- alternation

  datatype Latest = Never | Was(event: Event)

  function LatestOf(log: seq<Event>, mac: Eui): Latest {
    if log == [] then Never
    else if log[|log| - 1].mac == mac then Was(log[|log| - 1])
    else LatestOf(log[..|log| - 1], mac)
  }

  /** For each gateway: new, deleted, new, deleted, and so on, beginning with new. */
  predicate Alternates(log: seq<Event>) {
    log == [] ||
    (Alternates(log[..|log| - 1]) &&
     match log[|log| - 1]
     case New(mac) => LatestOf(log[..|log| - 1], mac) != Was(New(mac))
     case Deleted(mac) => LatestOf(log[..|log| - 1], mac) == Was(New(mac)))
  }

  /** The registry agrees with the callbacks that went out. */
  ghost predicate Agrees(t: Table) {
    Alternates(t.log) && forall mac: Eui :: mac in t.entries <==> LatestOf(t.log, mac) == Was(New(mac))
  }

  lemma StoreAgrees(t: Table, mac: Eui, gateway: Gateway, accepted: bool)
    requires Agrees(t)
    ensures Agrees(Store(t, mac, gateway, accepted))
  {
  }

  lemma DropAgrees(t: Table, session: int, v: Visit)
    requires Agrees(t)
    ensures Agrees(Drop(t, session, v))
  {
  }

  lemma {:induction false} SweepAgrees(t: Table, session: int, visits: seq<Visit>)
    requires Agrees(t)
    ensures Agrees(Sweep(t, session, visits))
    decreases |visits|
  {
    if visits != [] {
      DropAgrees(t, session, visits[0]);
      SweepAgrees(Drop(t, session, visits[0]), session, visits[1..]);
    }
  }

  datatype Call = Set(mac: Eui, gateway: Gateway, accepted: bool) | Cleanup(session: int, visits: seq<Visit>)

  function Run(calls: seq<Call>): Table {
    if calls == [] then EMPTY
    else
      var t := Run(calls[..|calls| - 1]);
      match calls[|calls| - 1]
      case Set(mac, gateway, accepted) => Store(t, mac, gateway, accepted)
      case Cleanup(session, visits) => Sweep(t, session, visits)
  }

  /**
    In every run, whatever callbacks fail, each gateway's successful callbacks alternate, and a
    gateway is registered exactly when its last one was onNew.
   */
  lemma {:induction false} CallbacksAlternate(calls: seq<Call>)
    ensures Agrees(Run(calls))
  {
    if calls != [] {
      CallbacksAlternate(calls[..|calls| - 1]);
      var t := Run(calls[..|calls| - 1]);
      match calls[|calls| - 1]
      case Set(mac, gateway, accepted) => StoreAgrees(t, mac, gateway, accepted);
      case Cleanup(session, visits) => SweepAgrees(t, session, visits);
    }
  }

  /** Some visit comes more than a session after the gateway was last seen; each visit reads the clock itself. */
  ghost predicate FoundSilent(t: Table, session: int, visits: seq<Visit>, mac: Eui) {
    mac in t.entries && exists v :: v in visits && v.mac == mac && v.now - t.entries[mac].lastSeen > session
  }

  /** A visit that comes in time to find its gateway silent, and that onDelete refuses. */
  predicate IsRefusal(t: Table, session: int, v: Visit) {
    v.mac in t.entries && v.now - t.entries[v.mac].lastSeen > session && !v.accepted
  }

  predicate VisitsOnce(visits: seq<Visit>) {
    forall i, j | 0 <= i < j < |visits| :: visits[i].mac != visits[j].mac
  }

  /**
    A cleanup ends at its first refusal, at visit k, or makes all its visits. It drops exactly the
    gateways that the visits before found silent for a session, and fails exactly at a refusal.
   */
  lemma {:induction false} SweepIsExact(t: Table, session: int, visits: seq<Visit>) returns (k: nat)
    requires VisitsOnce(visits)
    ensures k <= |visits| && forall i | 0 <= i < k :: !IsRefusal(t, session, visits[i])
    ensures k < |visits| ==> IsRefusal(t, session, visits[k])
    ensures Refused(t, session, visits) <==> k < |visits|
    ensures Sweep(t, session, visits).entries ==
            map mac | mac in t.entries && !FoundSilent(t, session, visits[..k], mac) :: t.entries[mac]
    decreases |visits|
  {
    hide FoundSilent;
    k := 0;
    if visits == [] || IsRefusal(t, session, visits[0]) {
      NothingFound(t, session, visits);
    } else {
      var t', rest := Drop(t, session, visits[0]), visits[1..];
      assert Sweep(t, session, visits) == Sweep(t', session, rest) && Refused(t, session, visits) == Refused(t', session, rest);
      assert forall mac: Eui | mac in t'.entries :: mac in t.entries && t'.entries[mac] == t.entries[mac];
      hide Sweep, Drop, Refused, Expired, IsRefusal;
      RefusalsAfterDrop(t, session, visits);
      var n := SweepIsExact(t', session, rest);
      k := n + 1;
      assert visits[..k][1..] == rest[..n] && forall i | 0 < i < k :: visits[i] == rest[i - 1];
      forall mac: Eui | mac in t.entries
        ensures FoundSilent(t, session, visits[..k], mac) <==> mac !in t'.entries || FoundSilent(t', session, rest[..n], mac)
      {
        SilenceAfterDrop(t, session, visits[..k], mac);
      }
    }
  }

  lemma NothingFound(t: Table, session: int, visits: seq<Visit>)
    ensures t.entries == map mac | mac in t.entries && !FoundSilent(t, session, visits[..0], mac) :: t.entries[mac]
  {
  }

  lemma RefusalsAfterDrop(t: Table, session: int, visits: seq<Visit>)
    requires visits != [] && VisitsOnce(visits)
    ensures var t', rest := Drop(t, session, visits[0]), visits[1..];
            forall i | 0 <= i < |rest| :: IsRefusal(t', session, rest[i]) <==> IsRefusal(t, session, visits[i + 1])
  {
    var rest := visits[1..];
    assert forall i | 0 <= i < |rest| :: visits[0].mac != rest[i].mac;
  }

  lemma SilenceAfterDrop(t: Table, session: int, visits: seq<Visit>, mac: Eui)
    requires visits != [] && !IsRefusal(t, session, visits[0]) && mac in t.entries
    ensures var t' := Drop(t, session, visits[0]);
            FoundSilent(t, session, visits, mac) <==> mac !in t'.entries || FoundSilent(t', session, visits[1..], mac)
  {
    var first, rest, t' := visits[0], visits[1..], Drop(t, session, visits[0]);
    assert forall v :: v in visits <==> v == first || v in rest;
    assert mac !in t'.entries <==> first.mac == mac && Expired(t, session, first);
    if mac in t'.entries {
      assert forall v: Visit :: v.mac == mac ==> (Expired(t, session, v) <==> Expired(t', session, v));
    }
  }

  // ---------------------------------------------------------------- the code

  datatype Lookup = Found(gateway: Gateway) | DoesNotExist

  class Gateways {
    const session: int
    var entries: map<Eui, Gateway>
    var log: seq<Event>

    constructor (session: int)
      ensures this.session == session && View() == EMPTY
    {
      this.session := session;
      entries, log := map[], [];
    }

    function View(): Table
      reads this
    {
      Table(entries, log)
    }

    method Get(mac: Eui) returns (r: Lookup)
      ensures r.Found? <==> mac in entries
      ensures r.Found? ==> r.gateway == entries[mac]
    {
      return if mac in entries then Found(entries[mac]) else DoesNotExist;
    }

    /** set: accepted is what onNew answers, should it be called. */
    method Set(mac: Eui, gateway: Gateway, accepted: bool) returns (ok: bool)
      modifies this
      ensures View() == Store(old(View()), mac, gateway, accepted)
      ensures ok <==> mac in entries && entries[mac] == gateway
      ensures ok <==> mac in old(entries) || accepted
    {
      if mac !in entries {
        if !accepted {
          return false;
        }
        log := log + [New(mac)];
      }
      entries := entries[mac := gateway];
      return true;
    }

    /** cleanup: visits is the order, the clock and the callbacks of one range over the map. */
    method Cleanup(visits: seq<Visit>) returns (ok: bool)
      requires VisitsOnce(visits)
      requires forall i | 0 <= i < |visits| :: visits[i].mac in entries
      modifies this
      ensures View() == Sweep(old(View()), session, visits)
      ensures ok <==> !Refused(old(View()), session, visits)
    {
      var i := 0;
      while i < |visits|
        invariant 0 <= i <= |visits|
        invariant Sweep(View(), session, visits[i..]) == Sweep(old(View()), session, visits)
        invariant Refused(View(), session, visits[i..]) <==> Refused(old(View()), session, visits)
        invariant forall j | i <= j < |visits| :: visits[j].mac in entries
      {
        var v := visits[i];
        assert visits[i..][0] == v && visits[i..][1..] == visits[i + 1..];
        if entries[v.mac].lastSeen < v.now - session {
          if !v.accepted {
            return false;
          }
          log := log + [Deleted(v.mac)];
          entries := entries - {v.mac};
        }
        i := i + 1;
      }
      return true;
    }
  }
}
