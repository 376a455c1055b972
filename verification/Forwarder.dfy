/**
  The packet forwarder as the only southbound backend (backend/pktfwd/pktfwd.go with the registry
  of backend/pktfwd/backend.go, forwarded by subscribeSouthbound in exchange/exchange.go). A
  registry callback hands one message to the forwarding goroutine, which hands it to the worker;
  the registry lock is held until the first hand-over is done, so the registry changes with it.
 */
module Forwarder {
  import opened MemoryAuth
  import opened Text
  import opened Lifecycle
  import opened Accounting
  import opened Euis
  import R = Registry

  /** A message on its way; onNew and onDelete never set a key. */
  datatype Message = Connect(id: Id) | Disconnect(id: Id)

  datatype Carrier = Free | Carries(message: Message)

  datatype Net = Net(exchange: State, carrier: Carrier, registry: R.Table)

  datatype Event =
    | PullData(mac: Eui, gateway: R.Gateway)
    | CleanupVisit(session: int, visit: R.Visit)
    | Deliver(worker: nat)
    | Inside(action: Action)

  /** What else may happen: the middleware refuses disconnects, gateways are connected by force. */
  datatype Rules = Rules(refusals: bool, forced: bool)

  const CALM := Rules(false, false)

  /** Steps of the exchange itself. The middleware may refuse any connect. */
  predicate IsInside(r: Rules, s: State, a: Action) {
    match a
    case Work(w, ok) => ok || r.refusals || (w < |s.workers| && !s.workers[w].Allowed?)
    case Activate(_) => true
    case Exit(_) => true
    case FetchToken(_, _, _, _) => true
    case Force(_) => r.forced
    case WorkForced => r.forced
    case _ => false
  }

  function Delivery(m: Message, w: nat): Action {
    match m
    case Connect(id) => TakeConnect(w, id, "")
    case Disconnect(id) => TakeDisconnect(w, id, "")
  }

  /** A callback blocks while the forwarder is still carrying; onNew and onDelete never fail. */
  predicate Possible(r: Rules, c: Config, n: Net, e: Event) {
    match e
    case PullData(mac, _) => mac in n.registry.entries || n.carrier.Free?
    case CleanupVisit(session, visit) =>
      visit.accepted && (R.Expired(n.registry, session, visit) ==> n.carrier.Free?)
    case Deliver(w) => n.carrier.Carries? && Enabled(c, n.exchange, Delivery(n.carrier.message, w))
    case Inside(a) => IsInside(r, n.exchange, a) && Enabled(c, n.exchange, a)
  }

  function Happen(r: Rules, c: Config, n: Net, e: Event): Net
    requires Possible(r, c, n, e)
  {
    match e
    case PullData(mac, gateway) =>
      n.(registry := R.Store(n.registry, mac, gateway, true),
         carrier := if mac in n.registry.entries then n.carrier else Carries(Connect(GetID(mac))))
    case CleanupVisit(session, visit) =>
      n.(registry := R.Drop(n.registry, session, visit),
         carrier := if R.Expired(n.registry, session, visit) then Carries(Disconnect(GetID(visit.mac))) else n.carrier)
    case Deliver(w) => n.(exchange := Next(c, n.exchange, Delivery(n.carrier.message, w)), carrier := Free)
    case Inside(a) => n.(exchange := Next(c, n.exchange, a))
  }

  ghost predicate Arrives(r: Rules, c: Config, h: seq<Event>, n: Net)
    decreases |h|
  {
    if h == [] then n == Net(Init(c), Free, R.EMPTY)
    else exists p :: Arrives(r, c, Past(h), p) && Happens(r, c, p, Last(h), n)
  }

  ghost predicate Happens(r: Rules, c: Config, n: Net, e: Event, n': Net) {
    Possible(r, c, n, e) && n' == Happen(r, c, n, e)
  }

  // ---------------------------------------------------------------- replay

  /** What the worker's message will still do to the set. */
  function HeldByWorker(pc: Pc): seq<Message> {
    if pc.Connecting? || pc.Keyed? then [Connect(pc.id)]
    else if pc.Disconnecting? || IsLeaving(pc) then [Disconnect(pc.id)]
    else []
  }

  function InFlight(n: Net): seq<Message> {
    HeldByWorker(Worker(n.exchange)) + if n.carrier.Free? then [] else [n.carrier.message]
  }

  function Replay(gateways: set<Id>, messages: seq<Message>): set<Id>
    decreases |messages|
  {
    if messages == [] then gateways
    else
      match messages[0]
      case Connect(id) => Replay(gateways + {id}, messages[1..])
      case Disconnect(id) => Replay(gateways - {id}, messages[1..])
  }

  function IDs(macs: set<Eui>): set<Id> {
    set mac | mac in macs :: GetID(mac)
  }

  /** Nothing ever sets a key, so every key shown is empty and every check passes. */
  predicate Keyless(s: State) {
    && |s.workers| == 1 && s.forced == Idle
    && s.shared.auth == map[]
    && (Worker(s).Connecting? ==> Worker(s).key == "")
  }

  ghost predicate Mirrors(n: Net) {
    && Keyless(n.exchange)
    && (n.carrier.Carries? ==> ToLower(n.carrier.message.id) == n.carrier.message.id)
    && Replay(n.exchange.shared.gateways, InFlight(n)) == IDs(n.registry.entries.Keys)
  }

  lemma {:induction false} ReplayAppend(gateways: set<Id>, messages: seq<Message>, m: Message)
    ensures Replay(gateways, messages + [m])
            == match m case Connect(id) => Replay(gateways, messages) + {id}
                       case Disconnect(id) => Replay(gateways, messages) - {id}
    decreases |messages|
  {
    if messages == [] {
      assert [m][1..] == [] && messages + [m] == [m];
    } else {
      assert (messages + [m])[1..] == messages[1..] + [m];
      ReplayAppend(match messages[0] case Connect(id) => gateways + {id} case Disconnect(id) => gateways - {id},
                   messages[1..], m);
    }
  }

  /** A turn of the worker either leaves its message's effect outstanding or takes all of it. */
  lemma TurnTakesEffect(c: Config, s: Shared, pc: Pc, ok: bool)
    requires s.auth == map[] && (pc.Connecting? ==> pc.key == "") && (pc.Allowed? ==> ok)
    ensures var (t, pc') := Turn(c, s, pc, ok);
            && t.auth == map[] && (pc'.Connecting? ==> pc'.key == "")
            && (if HeldByWorker(pc') == HeldByWorker(pc) then t.gateways == s.gateways
                else HeldByWorker(pc') == [] && t.gateways == Replay(s.gateways, HeldByWorker(pc)))
  {
  }

  /** The worker's own steps do to the set what the replay expects of its message. */
  lemma WorkReplays(c: Config, s: Shared, pc: Pc, ok: bool, rest: seq<Message>)
    requires s.auth == map[] && (pc.Connecting? ==> pc.key == "") && (pc.Allowed? ==> ok)
    ensures var (t, pc') := Turn(c, s, pc, ok);
            && t.auth == map[] && (pc'.Connecting? ==> pc'.key == "")
            && Replay(t.gateways, HeldByWorker(pc') + rest) == Replay(s.gateways, HeldByWorker(pc) + rest)
  {
    hide Turn;
    TurnTakesEffect(c, s, pc, ok);
    var held := HeldByWorker(pc);
    if held != [] {
      assert (held + rest)[1..] == rest && held[1..] == [];
    }
    assert [] + rest == rest;
  }

  lemma RegistryMirrors(c: Config, n: Net, e: Event)
    requires Mirrors(n) && Possible(CALM, c, n, e) && (e.PullData? || e.CleanupVisit?)
    ensures Mirrors(Happen(CALM, c, n, e))
  {
    var n' := Happen(CALM, c, n, e);
    if n'.carrier == n.carrier {
      KeysStay(c, n, e);
    } else {
      hide Keyless, Replay, IDs, R.Store, R.Drop, R.Expired, GetID;
      var mac := if e.PullData? then e.mac else e.visit.mac;
      IDNamesItsMac(mac);
      RegistryFollows(c, n, e, mac);
      assert InFlight(n') == InFlight(n) + [n'.carrier.message];
      ReplayAppend(n.exchange.shared.gateways, InFlight(n), n'.carrier.message);
    }
  }

  /** The IDs of the registry change as the message that is handed over says. */
  lemma RegistryFollows(c: Config, n: Net, e: Event, mac: Eui)
    requires Possible(CALM, c, n, e) && (e.PullData? || e.CleanupVisit?)
    requires Happen(CALM, c, n, e).carrier != n.carrier
    requires mac == if e.PullData? then e.mac else e.visit.mac
    ensures var n' := Happen(CALM, c, n, e);
            && n.carrier.Free? && n'.exchange == n.exchange
            && n'.carrier == Carries(if e.PullData? then Connect(GetID(mac)) else Disconnect(GetID(mac)))
            && IDs(n'.registry.entries.Keys) ==
               if e.PullData? then IDs(n.registry.entries.Keys) + {GetID(mac)}
               else IDs(n.registry.entries.Keys) - {GetID(mac)}
  {
    hide GetID;
    var n' := Happen(CALM, c, n, e);
    if e.PullData? {
      assert n'.registry.entries.Keys == n.registry.entries.Keys + {mac};
    } else {
      IDsWithout(n.registry.entries.Keys, mac);
      assert n'.registry.entries.Keys == n.registry.entries.Keys - {mac};
    }
  }

  lemma KeysStay(c: Config, n: Net, e: Event)
    requires Possible(CALM, c, n, e) && (e.PullData? || e.CleanupVisit?)
    requires Happen(CALM, c, n, e).carrier == n.carrier
    ensures Happen(CALM, c, n, e).registry.entries.Keys == n.registry.entries.Keys
  {
  }

  lemma IDsWithout(macs: set<Eui>, mac: Eui)
    ensures IDs(macs - {mac}) == IDs(macs) - {GetID(mac)}
  {
    forall id | id in IDs(macs - {mac}) ensures id in IDs(macs) - {GetID(mac)} {
      var other :| other in macs - {mac} && GetID(other) == id;
      if id == GetID(mac) { IDsAreDistinct(other, mac); }
    }
    forall id | id in IDs(macs) - {GetID(mac)} ensures id in IDs(macs - {mac}) {
      var other :| other in macs && GetID(other) == id;
      assert other in macs - {mac};
    }
  }

  lemma ExchangeMirrors(c: Config, n: Net, e: Event)
    requires Mirrors(n) && Possible(CALM, c, n, e) && (e.Deliver? || e.Inside?)
    ensures Mirrors(Happen(CALM, c, n, e))
  {
    hide Turn, Refresh, Replay;
    var n' := Happen(CALM, c, n, e);
    var carried := if n.carrier.Free? then [] else [n.carrier.message];
    match e {
      case Deliver(_) =>
        assert InFlight(n) == InFlight(n');
      case Inside(a) =>
        match a {
          case Work(w, ok) => WorkReplays(c, n.exchange.shared, n.exchange.workers[0], ok, carried);
          case FetchToken(id, now, exchanger, answer) => RefreshKeepsKeys(map[], id, now, exchanger, answer);
          case _ =>
        }
    }
  }

  /**
    With one worker and the packet forwarder as the only southbound backend, replaying the messages
    in flight onto the exchange's gateway set always gives the IDs of the registered gateways.
   */
  lemma {:induction false} RegistryIsMirrored(c: Config, h: seq<Event>, n: Net)
    requires c.workers == 1 && Arrives(CALM, c, h, n)
    ensures Replay(n.exchange.shared.gateways, InFlight(n)) == IDs(n.registry.entries.Keys)
    ensures Mirrors(n)
    decreases |h|
  {
    if h == [] {
      assert InFlight(n) == [];
    } else {
      hide Mirrors, Possible, Happen;
      var e := Last(h);
      var p :| Arrives(CALM, c, Past(h), p) && Happens(CALM, c, p, e, n);
      RegistryIsMirrored(c, Past(h), p);
      if e.PullData? || e.CleanupVisit? {
        RegistryMirrors(c, p, e);
      } else {
        ExchangeMirrors(c, p, e);
      }
      MirrorsReplays(n);
    }
  }

  lemma MirrorsReplays(n: Net)
    requires Mirrors(n)
    ensures Replay(n.exchange.shared.gateways, InFlight(n)) == IDs(n.registry.entries.Keys)
  {
  }

  /** Once everything is delivered, the connected gateways are exactly the registered ones. */
  lemma QuietNetAgrees(c: Config, h: seq<Event>, n: Net)
    requires c.workers == 1 && Arrives(CALM, c, h, n)
    requires n.carrier.Free? && Worker(n.exchange) == Idle
    ensures n.exchange.shared.gateways == IDs(n.registry.entries.Keys)
  {
    RegistryIsMirrored(c, h, n);
    assert InFlight(n) == [];
  }

  /** And the callbacks that fed the exchange were those of a registry that alternates. */
  lemma {:induction false} RegistryAgrees(r: Rules, c: Config, h: seq<Event>, n: Net)
    requires Arrives(r, c, h, n)
    ensures R.Agrees(n.registry)
    decreases |h|
  {
    if h != [] {
      hide R.Agrees, Possible;
      var e := Last(h);
      var p :| Arrives(r, c, Past(h), p) && Happens(r, c, p, e, n);
      RegistryAgrees(r, c, Past(h), p);
      match e {
        case PullData(mac, gateway) => R.StoreAgrees(p.registry, mac, gateway, true);
        case CleanupVisit(session, visit) => R.DropAgrees(p.registry, session, visit);
        case _ =>
      }
    } else {
      R.CallbacksAlternate([]);
    }
  }
}
