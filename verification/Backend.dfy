/**
  Opening and using the downlink route (handlePullData and Send in backend/pktfwd/backend.go): a
  PULL_DATA passes the source lock, registers its gateway, and is acknowledged; a downlink goes to
  the address of the last one.
 */
module Backend {
  import opened Machine
  import opened Euis
  import opened Packets
  import SourceLocks
  import R = Registry

  datatype Datagram = Datagram(to: SourceLocks.Addr, data: Bytes)

  /** The locks of PULL_DATA sources, the registry, and what was handed to the UDP sender. */
  datatype State = State(sources: SourceLocks.Sources, table: R.Table, sent: seq<Datagram>)

  const START := State(map[], R.EMPTY, [])

  /** The configuration: source locks, if any, and the session length. */
  datatype Config = Config(locks: Option<SourceLocks.Config>, session: int)

  datatype Event =
    | Pull(from: SourceLocks.Addr, data: Bytes, checkedAt: int, storedAt: int, now: int, welcome: bool)
    | Cleanup(visits: seq<R.Visit>)

  /** The packet a datagram carries, if it is a PULL_DATA that no lock stands against. */
  function Admitted<P>(j: Json<P>, c: Config, s: State, e: Event): Option<Packet<P>>
    requires e.Pull?
  {
    match Unmarshal(j, PULL_DATA, e.data)
    case Err(_) => None
    case Ok(p) =>
      if p.PullData? && (c.locks.None? || SourceLocks.Check(c.locks.value, s.sources, p.mac, e.from, e.checkedAt) == SourceLocks.Accepted) then Some(p)
      else None
  }

  /** handlePullData; welcome is what onNew answers. The lock is taken even if the registry refuses. */
  function HandlePull<P>(j: Json<P>, c: Config, s: State, e: Event): State
    requires e.Pull?
  {
    match Admitted(j, c, s, e)
    case None => s
    case Some(p) =>
      if !p.PullData? then s
      else
        var sources := if c.locks.None? then s.sources else s.sources[p.mac := SourceLocks.Source(e.storedAt, e.from)];
        var table := R.Store(s.table, p.mac, R.Gateway(e.from, e.now, p.version), e.welcome);
        var ack := Datagram(e.from, Marshal(j, PullACK(p.version, p.token)));
        State(sources, table, if p.mac in table.entries then s.sent + [ack] else s.sent)
  }

  function Handle<P>(j: Json<P>, c: Config, s: State, e: Event): State {
    match e
    case Pull(_, _, _, _, _, _) => HandlePull(j, c, s, e)
    case Cleanup(visits) => s.(table := R.Sweep(s.table, c.session, visits))
  }

  function Run<P>(j: Json<P>, c: Config, events: seq<Event>): State {
    if events == [] then START else Handle(j, c, Run(j, c, events[..|events| - 1]), events[|events| - 1])
  }

  /** Send: the datagram for a downlink, if the gateway of that ID is registered. */
  function Send<P>(j: Json<P>, s: State, id: string, token: Word, payload: P): Option<Datagram> {
    var mac := GetMac(id);
    if mac in s.table.entries then
      Some(Datagram(s.table.entries[mac].addr, Marshal(j, PullResp(s.table.entries[mac].version, token, payload))))
    else None
  }

  // ---------------------------------------------------------------- properties

  /** Twelve bytes, a version that is spoken, and the identifier of a PULL_DATA. */
  predicate IsPullData(data: Bytes) {
    |data| == 12 && (data[0] == 1 || data[0] == 2) && data[3] == 2
  }

  /** No locks, or the lock of the gateway lets this source in. */
  predicate LetsIn(c: Config, s: State, e: Event)
    requires e.Pull? && IsPullData(e.data)
  {
    c.locks.None? || SourceLocks.Check(c.locks.value, s.sources, e.data[4..12], e.from, e.checkedAt) == SourceLocks.Accepted
  }

  /**
    A PULL_DATA is answered exactly when the locks let it in and its gateway is registered or
    welcome: with its version and token under the identifier of a PULL_ACK, to where it came from.
    Then the gateway is registered with that source, and in no other case does the registry change.
   */
  lemma AcknowledgesExactly<P>(j: Json<P>, c: Config, s: State, e: Event)
    requires e.Pull?
    ensures var t := HandlePull(j, c, s, e);
            if IsPullData(e.data) && LetsIn(c, s, e) && (e.data[4..12] in s.table.entries || e.welcome)
            then && t.sent == s.sent + [Datagram(e.from, [e.data[0], e.data[1], e.data[2], 4])]
                 && t.table.entries == s.table.entries[e.data[4..12] := R.Gateway(e.from, e.now, e.data[0])]
            else t.sent == s.sent && t.table == s.table
    ensures HandlePull(j, c, s, e).sources ==
            if c.locks.Some? && IsPullData(e.data) && LetsIn(c, s, e)
            then s.sources[e.data[4..12] := SourceLocks.Source(e.storedAt, e.from)] else s.sources
  {
  }

  /** What goes out is a PULL_ACK with version and token of what came in. */
  lemma AcknowledgesWhatItGot<P(!new)>(j: Json<P>, c: Config, s: State, e: Event)
    requires e.Pull? && HandlePull(j, c, s, e).sent != s.sent
    ensures var sent := HandlePull(j, c, s, e).sent;
            && |e.data| == 12 && |sent| == |s.sent| + 1
            && Unmarshal(j, PULL_ACK, sent[|s.sent|].data) == Ok(PullACK(e.data[0], Token(e.data)))
  {
    hide HandlePull, Unmarshal;
    AcknowledgesExactly(j, c, s, e);
    AcknowledgementReads(j, e.data);
  }

  lemma AcknowledgementReads<P>(j: Json<P>, data: Bytes)
    requires IsPullData(data)
    ensures Unmarshal(j, PULL_ACK, [data[0], data[1], data[2], 4]) == Ok(PullACK(data[0], Token(data)))
  {
  }

  /** The version and the source of the last PULL_DATA that registered or refreshed a gateway. */
  function LastRoute<P>(j: Json<P>, c: Config, events: seq<Event>, mac: Eui): Option<(Byte, SourceLocks.Addr)> {
    if events == [] then None
    else
      var before, e := events[..|events| - 1], events[|events| - 1];
      var s := Run(j, c, before);
      if e.Pull? && Admitted(j, c, s, e).Some? then
        var p := Admitted(j, c, s, e).value;
        if p.PullData? && p.mac == mac && (mac in s.table.entries || e.welcome) then Some((p.version, e.from))
        else LastRoute(j, c, before, mac)
      else LastRoute(j, c, before, mac)
  }

  lemma {:induction false} SweepKeepsEntries(t: R.Table, session: int, visits: seq<R.Visit>, mac: Eui)
    ensures mac in R.Sweep(t, session, visits).entries ==>
              mac in t.entries && R.Sweep(t, session, visits).entries[mac] == t.entries[mac]
    decreases |visits|
  {
    if visits != [] {
      SweepKeepsEntries(R.Drop(t, session, visits[0]), session, visits[1..], mac);
    }
  }

  lemma {:induction false} EntryIsLastRoute<P>(j: Json<P>, c: Config, events: seq<Event>, mac: Eui)
    ensures var s := Run(j, c, events);
            mac in s.table.entries ==>
              && Supported(s.table.entries[mac].version)
              && LastRoute(j, c, events, mac) == Some((s.table.entries[mac].version, s.table.entries[mac].addr))
  {
    if events != [] {
      var before, e := events[..|events| - 1], events[|events| - 1];
      EntryIsLastRoute(j, c, before, mac);
      match e {
        case Pull(_, _, _, _, _, _) =>
        case Cleanup(visits) => SweepKeepsEntries(Run(j, c, before).table, c.session, visits, mac);
      }
    }
  }

  lemma {:induction false} RunAgrees<P>(j: Json<P>, c: Config, events: seq<Event>)
    ensures R.Agrees(Run(j, c, events).table)
  {
    if events == [] {
      R.CallbacksAlternate([]);
    } else {
      hide R.Agrees;
      var before, e := events[..|events| - 1], events[|events| - 1];
      RunAgrees(j, c, before);
      var s := Run(j, c, before);
      match e {
        case Pull(from, _, _, _, now, welcome) =>
          if Admitted(j, c, s, e).Some? {
            var p := Admitted(j, c, s, e).value;
            if p.PullData? { R.StoreAgrees(s.table, p.mac, R.Gateway(from, now, p.version), welcome); }
          }
        case Cleanup(visits) => R.SweepAgrees(s.table, c.session, visits);
      }
    }
  }

  /**
    After any run, a downlink for a gateway's ID is sent exactly when the last successful callback
    for it was onNew, and then to the source and in the version of its last admitted PULL_DATA.
   */
  lemma DownlinkFollowsTheLastPull<P(!new)>(j: Json<P>, c: Config, events: seq<Event>, mac: Eui, token: Word, payload: P)
    requires Invertible(j)
    ensures var s := Run(j, c, events);
            var d := Send(j, s, GetID(mac), token, payload);
            && (d.Some? <==> R.LatestOf(s.table.log, mac) == R.Was(R.New(mac)))
            && (d.Some? ==>
                  && LastRoute(j, c, events, mac).Some?
                  && var (version, from) := LastRoute(j, c, events, mac).value;
                  && d.value.to == from
                  && Unmarshal(j, PULL_RESP, d.value.data) == Ok(Carried(PullResp(version, token, payload))))
  {
    hide Run, LastRoute, Marshal, Unmarshal;
    IDNamesItsMac(mac);
    EntryIsLastRoute(j, c, events, mac);
    RunAgrees(j, c, events);
    var s := Run(j, c, events);
    if mac in s.table.entries {
      RoundTrip(j, PullResp(s.table.entries[mac].version, token, payload));
    }
  }

  // ---------------------------------------------------------------- the code

  datatype Handled = Done | BadPacket(error: Error) | Locked(verdict: SourceLocks.Verdict) | Refused

  class PacketBackend<P> {
    const json: Json<P>
    const pullSources: SourceLocks.Locks?
    const gateways: R.Gateways
    var sent: seq<Datagram>

    constructor (json: Json<P>, pullSources: SourceLocks.Locks?, gateways: R.Gateways)
      ensures this.json == json && this.pullSources == pullSources && this.gateways == gateways && sent == []
    {
      this.json, this.pullSources, this.gateways, this.sent := json, pullSources, gateways, [];
    }

    function Configuration(): Config {
      Config(if pullSources == null then None else Some(pullSources.config), gateways.session)
    }

    function View(): State
      reads this, gateways, pullSources
    {
      State(if pullSources == null then map[] else pullSources.sources, gateways.View(), sent)
    }

    method HandlePullData(from: SourceLocks.Addr, data: Bytes, checkedAt: int, storedAt: int, now: int, welcome: bool)
      returns (r: Handled)
      modifies this, gateways, pullSources
      ensures View() == HandlePull(json, Configuration(), old(View()), Pull(from, data, checkedAt, storedAt, now, welcome))
      ensures r.BadPacket? <==> !IsPullData(data)
      ensures r.Locked? <==> IsPullData(data) && !old(LetsIn(Configuration(), View(), Pull(from, data, checkedAt, storedAt, now, welcome)))
      ensures r == Refused <==> !r.BadPacket? && !r.Locked? && data[4..12] !in old(gateways.entries) && !welcome
      ensures r.BadPacket? || r.Locked? ==> View() == old(View())
      ensures sent == old(sent) + if r == Done then [Datagram(from, [data[0], data[1], data[2], 4])] else []
    {
      var p := Unmarshal(json, PULL_DATA, data);
      if p.Err? {
        return BadPacket(p.error);
      }
      var packet := p.value;
      if pullSources != null {
        var verdict := pullSources.Set(packet.mac, from, checkedAt, storedAt);
        if verdict != SourceLocks.Accepted {
          return Locked(verdict);
        }
      }
      var ack := Marshal(json, PullACK(packet.version, packet.token));
      var ok := gateways.Set(packet.mac, R.Gateway(from, now, packet.version), welcome);
      if !ok {
        return Refused;
      }
      sent := sent + [Datagram(from, ack)];
      return Done;
    }
  }
}
