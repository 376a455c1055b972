/**
  What keeps the packet forwarder's registry and the exchange's gateway set apart
  (exchange/exchange.go): a disconnect that the middleware refuses, a gateway connected by force,
  and a second worker. Each has its run here, and without all three the two always agree.
 */
module Disturbances {
  import opened MemoryAuth
  import opened Lifecycle
  import opened Euis
  import opened Forwarder
  import Registry
  import SourceLocks

  /** Nothing is on its way. */
  ghost predicate Quiet(n: Net) {
    n.carrier.Free? && forall w | 0 <= w < |n.exchange.workers| :: n.exchange.workers[w] == Idle
  }

  ghost predicate Agree(n: Net) {
    n.exchange.shared.gateways == IDs(n.registry.entries.Keys)
  }

  lemma ArrivesOn(r: Rules, c: Config, h: seq<Event>, n: Net, e: Event)
    requires Arrives(r, c, h, n) && Possible(r, c, n, e)
    ensures Arrives(r, c, h + [e], Happen(r, c, n, e))
  {
    assert Past(h + [e]) == h;
    assert Happens(r, c, n, Last(h + [e]), Happen(r, c, n, e));
  }

  /** A turn of a worker, everything else standing still. */
  lemma WorkerTurns(r: Rules, c: Config, h: seq<Event>, n: Net, w: nat, ok: bool, pc: Pc, pc': Pc, shared: Shared)
    returns (h': seq<Event>, n': Net)
    requires Arrives(r, c, h, n) && !n.exchange.shared.channels.panicked
    requires w < |n.exchange.workers| && n.exchange.workers[w] == pc != Idle
    requires Turn(c, n.exchange.shared, pc, ok) == (shared, pc') && (pc.Allowed? ==> ok || r.refusals)
    ensures Arrives(r, c, h', n')
    ensures n' == n.(exchange := State(shared, n.exchange.workers[w := pc'], n.exchange.forced))
  {
    hide Arrives, Turn;
    ArrivesOn(r, c, h, n, Inside(Work(w, ok)));
    h', n' := h + [Inside(Work(w, ok))], Happen(r, c, n, Inside(Work(w, ok)));
  }

  const SEEN := Registry.Gateway(SourceLocks.Addr([127, 0, 0, 1], 1700), 0, 2)

  function ID(): Id {
    GetID(ZERO)
  }

  /** A gateway is new to the registry, and worker 0 takes its connect. */
  lemma Appears(r: Rules, c: Config) returns (h: seq<Event>, n: Net)
    requires c.workers >= 1
    ensures Arrives(r, c, h, n) && n.carrier.Free? && n.registry.entries == map[ZERO := SEEN]
    ensures n.exchange == Init(c).(workers := Init(c).workers[0 := Connecting(ID(), "")])
  {
    hide GetID;
    IDNamesItsMac(ZERO);
    h, n := [], Net(Init(c), Free, Registry.EMPTY);
    ArrivesOn(r, c, h, n, PullData(ZERO, SEEN));
    h, n := h + [PullData(ZERO, SEEN)], Happen(r, c, n, PullData(ZERO, SEEN));
    ArrivesOn(r, c, h, n, Deliver(0));
    h, n := h + [Deliver(0)], Happen(r, c, n, Deliver(0));
  }

  /** The gateway expires, and worker w takes its disconnect. */
  lemma Disappears(r: Rules, c: Config, h: seq<Event>, n: Net, w: nat) returns (h': seq<Event>, n': Net)
    requires Arrives(r, c, h, n) && !n.exchange.shared.channels.panicked
    requires n.carrier.Free? && n.registry.entries == map[ZERO := SEEN]
    requires w < |n.exchange.workers| && n.exchange.workers[w] == Idle
    ensures Arrives(r, c, h', n') && n'.carrier.Free? && n'.registry.entries == map[]
    ensures n'.exchange == n.exchange.(workers := n.exchange.workers[w := Disconnecting(ID(), "")])
  {
    hide Arrives, GetID;
    IDNamesItsMac(ZERO);
    var e := CleanupVisit(0, Registry.Visit(ZERO, 1, true));
    ArrivesOn(r, c, h, n, e);
    h', n' := h + [e], Happen(r, c, n, e);
    ArrivesOn(r, c, h', n', Deliver(w));
    h', n' := h' + [Deliver(w)], Happen(r, c, n', Deliver(w));
  }

  const JOINED := FRESH.(gateways := {ID()}, rejected := 1)

  /** Worker 0 puts the gateway into the set; its connect is then refused, which changes nothing more. */
  lemma Joins(r: Rules, c: Config, h: seq<Event>, n: Net) returns (h': seq<Event>, n': Net)
    requires Arrives(r, c, h, n) && n.exchange.shared == FRESH
    requires n.exchange.workers != [] && n.exchange.workers[0] == Connecting(ID(), "")
    ensures Arrives(r, c, h', n')
    ensures n' == n.(exchange := State(JOINED, n.exchange.workers[0 := Idle], n.exchange.forced))
  {
    hide Arrives, GetID;
    var added := FRESH.(gateways := {ID()});
    assert FRESH.gateways + {ID()} == {ID()};
    h', n' := WorkerTurns(r, c, h, n, 0, true, Connecting(ID(), ""), Keyed(ID()), FRESH);
    h', n' := WorkerTurns(r, c, h', n', 0, true, Keyed(ID()), Added(ID()), added);
    h', n' := WorkerTurns(r, c, h', n', 0, false, Added(ID()), Idle, JOINED);
    assert n'.exchange.workers == n.exchange.workers[0 := Idle];
  }

  /** The middleware refuses a disconnect: the gateway stays in the set, and the registry is rid of it. */
  lemma RefusedDisconnectStays(r: Rules, c: Config) returns (h: seq<Event>, n: Net)
    requires c.workers >= 1 && r.refusals
    ensures Arrives(r, c, h, n) && Quiet(n) && !Agree(n)
  {
    hide Arrives, GetID;
    h, n := Appears(r, c);
    h, n := Joins(r, c, h, n);
    h, n := Disappears(r, c, h, n, 0);
    h, n := WorkerTurns(r, c, h, n, 0, true, Disconnecting(ID(), ""), Present(ID(), ""), JOINED);
    h, n := WorkerTurns(r, c, h, n, 0, true, Present(ID(), ""), Allowed(ID(), ""), JOINED);
    h, n := WorkerTurns(r, c, h, n, 0, false, Allowed(ID(), ""), Idle, JOINED);
    assert ID() in n.exchange.shared.gateways;
  }

  /** One worker overtakes another: it drops the disconnect of a gateway that has yet to join. */
  lemma DisconnectOvertakes(r: Rules, c: Config) returns (h: seq<Event>, n: Net)
    requires c.workers >= 2
    ensures Arrives(r, c, h, n) && Quiet(n) && !Agree(n)
  {
    hide Arrives, GetID;
    h, n := Appears(r, c);
    h, n := Disappears(r, c, h, n, 1);
    h, n := WorkerTurns(r, c, h, n, 1, true, Disconnecting(ID(), ""), Idle, FRESH);
    h, n := Joins(r, c, h, n);
    assert ID() in n.exchange.shared.gateways;
  }

  /** A gateway that is connected by force was never registered. */
  lemma ForcedIsUnregistered(r: Rules, c: Config) returns (h: seq<Event>, n: Net)
    requires r.forced
    ensures Arrives(r, c, h, n) && Quiet(n) && !Agree(n)
  {
    h, n := [], Net(Init(c), Free, Registry.EMPTY);
    ArrivesOn(r, c, h, n, Inside(Force("x")));
    h, n := h + [Inside(Force("x"))], Happen(r, c, n, Inside(Force("x")));
    assert "x" in n.exchange.shared.gateways;
  }

  /**
    Whenever nothing is on its way, the connected gateways are the registered ones, exactly for an
    exchange of one worker that refuses no disconnect and connects nobody by force.
   */
  lemma RegistryAndSetAgreeExactly(r: Rules, c: Config)
    requires c.workers >= 1
    ensures (forall h, n :: Arrives(r, c, h, n) && Quiet(n) ==> Agree(n)) <==> c.workers == 1 && r == CALM
  {
    hide Arrives, IDs;
    if c.workers == 1 && r == CALM {
      forall h, n | Arrives(r, c, h, n) && Quiet(n) ensures Agree(n) {
        RegistryIsMirrored(c, h, n);
        QuietNetAgrees(c, h, n);
      }
    } else if r.refusals {
      var h, n := RefusedDisconnectStays(r, c);
    } else if r.forced {
      var h, n := ForcedIsUnregistered(r, c);
      assert Arrives(r, c, h, n) && Quiet(n) && !Agree(n);
    } else {
      var h, n := DisconnectOvertakes(r, c);
    }
  }
}
