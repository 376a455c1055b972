/**
  The exchange object (exchange/exchange.go): its fields, the code between taking and releasing
  doneLock, and the connect and disconnect cases of handleChannels. Each method does to the fields
  what the steps of module Lifecycle say, and every close() it reaches finds an open channel.
 */
module Exchanges {
  import opened MemoryAuth
  import opened Text
  import opened DoneChannels
  import opened Lifecycle

  /** An upper bound on the steps a goroutine still takes for its message. */
  function Left(c: Config, pc: Pc): nat {
    var all := c.northbound + c.southbound;
    match pc
    case Idle => 0
    case Removed(_) => 1
    case SouthClosed(_, _) => 2
    case NorthClosed(_, _) => 3
    case Approved(_, _) => 4
    case Allowed(_, _) => 5
    case Present(_, _) => 6
    case Disconnecting(_, _) => 7
    case Spawning(_, n) => 1 + if n < all then all - n else 0
    case Added(_) => 2 + all
    case Keyed(_) => 3 + all
    case Connecting(_, _) => 4 + all
  }

  lemma TurnProgresses(c: Config, s: Shared, pc: Pc, ok: bool)
    requires pc != Idle
    ensures Left(c, Turn(c, s, pc, ok).1) < Left(c, pc)
  {
    hide Deactivate;
  }

  /** The whole of a message, worked through without interruption. */
  ghost function Finish(c: Config, s: Shared, pc: Pc, ok: bool): Shared
    decreases Left(c, pc)
  {
    if pc == Idle then s
    else
      TurnProgresses(c, s, pc, ok);
      Finish(c, Turn(c, s, pc, ok).0, Turn(c, s, pc, ok).1, ok)
  }

  /** A forced connect, one gateway after the other. */
  ghost function ForceAll(c: Config, s: Shared, ids: seq<Id>): Shared
    decreases |ids|
  {
    if ids == [] then s
    else if ids[0] in s.gateways then ForceAll(c, s, ids[1..])
    else
      ForceAll(c, Finish(c, s.(gateways := s.gateways + {ids[0]}), Spawning(ids[0], FirstSpawn(c, ids[0])), true), ids[1..])
  }

  class Exchange {
    const config: Config
    const auth: Memory
    var gateways: set<Id>
    var pending: multiset<Slot>
    var connected: int
    var rejected: nat
    var done: map<Slot, seq<Channel>>
    var owner: map<Channel, Slot>
    var closed: set<Channel>
    var running: set<Channel>
    var stopped: bool

    constructor (config: Config, auth: Memory)
      requires auth.gateways == map[]
      ensures this.config == config && this.auth == auth
      ensures View() == FRESH
    {
      this.config, this.auth := config, auth;
      gateways, done, owner, closed, running := {}, map[], map[], {}, {};
      pending, connected, rejected, stopped := multiset{}, 0, 0, false;
    }

    function View(): Shared
      reads this, auth
    {
      Shared(gateways, auth.gateways, Doors(), pending, connected, rejected)
    }

    /** The done channels; this object has not panicked. */
    function Doors(): Channels
      reads this
    {
      Channels(done, owner, closed, running, stopped, false)
    }

    /** close(): closing a closed channel is a panic, so no caller may get here with one. */
    method Close(channel: Channel)
      requires channel !in closed
      modifies this`closed
      ensures closed == old(closed) + {channel}
    {
      closed := closed + {channel};
    }

    /** The locked region of activateNorthbound and activateSouthbound. */
    method Activate(slot: Slot) returns (channel: Channel)
      requires slot in pending && HoldsOpenChannels(Doors())
      modifies this
      ensures View() == RegisterActivation(old(View()), slot)
      ensures HoldsOpenChannels(Doors())
      ensures channel !in old(owner) && channel !in closed && channel in running
      ensures owner == old(owner)[channel := slot]
      ensures done == old(done)[slot := (if slot in old(done) then old(done)[slot] else []) + [channel]]
    {
      RegisterKeepsHeld(Doors(), slot);
      channel := |owner|;
      pending := pending - multiset{slot};
      owner := owner[channel := slot];
      running := running + {channel};
      done := done[slot := (if slot in done then done[slot] else []) + [channel]];
    }

    method CloseAll(channels: seq<Channel>)
      requires forall i | 0 <= i < |channels| :: channels[i] !in closed
      requires forall i, j | 0 <= i < j < |channels| :: channels[i] != channels[j]
      modifies this`closed
      ensures Doors() == CloseEach(old(Doors()), channels)
    {
      var i := 0;
      while i < |channels|
        invariant 0 <= i <= |channels|
        invariant forall j | i <= j < |channels| :: channels[j] !in closed
        invariant CloseEach(Doors(), channels[i..]) == CloseEach(old(Doors()), channels)
      {
        assert channels[i..][1..] == channels[i + 1..];
        Close(channels[i]);
        i := i + 1;
      }
    }

    /** deactivateNorthbound and deactivateSouthbound */
    method DeactivateSlot(slot: Slot)
      requires HoldsOpenChannels(Doors())
      modifies this
      ensures View() == old(View()).(channels := Deactivate(old(Doors()), slot))
      ensures HoldsOpenChannels(Doors())
    {
      DeactivateKeepsHeld(Doors(), slot);
      if slot in done {
        assert Held(Doors(), slot);
        CloseAll(done[slot]);
        done := done - {slot};
      }
    }

    /** The nested loops of Stop. */
    method CloseSlotsIn(order: seq<Slot>)
      requires forall slot | slot in order :: slot in done && Held(Doors(), slot)
      requires forall i, j | 0 <= i < j < |order| :: order[i] != order[j]
      modifies this`closed
      ensures Doors() == CloseSlots(old(Doors()), order)
    {
      var i := 0;
      while i < |order|
        invariant 0 <= i <= |order|
        invariant forall slot | slot in order[i..] :: slot in done && Held(Doors(), slot)
        invariant CloseSlots(Doors(), order[i..]) == CloseSlots(old(Doors()), order)
      {
        ghost var before := Doors();
        var slot := order[i];
        assert order[i..][0] == slot && order[i..][1..] == order[i + 1..];
        assert Held(before, slot);
        CloseEachIsSafe(before, done[slot]);
        CloseAll(done[slot]);
        forall other | other in order[i + 1..] ensures Held(Doors(), other) {
          assert other in order[i..] && Held(before, other) && other != slot;
        }
        i := i + 1;
      }
    }

    method Stop(order: seq<Slot>)
      requires HoldsOpenChannels(Doors()) && !stopped && IsSweepOf(order, done)
      modifies this
      ensures View() == old(View()).(channels := StopAll(old(Doors()), order))
      ensures HoldsOpenChannels(Doors()) && closed == owner.Keys && done == map[]
    {
      ghost var s := Doors();
      StopKeepsHeld(s, order);
      stopped := true;
      forall slot | slot in order ensures slot in done && Held(Doors(), slot) {
        assert slot in (set other | other in order) && Held(s, slot);
      }
      CloseSlotsIn(order);
      done := map[];
    }

    /** The connect case of handleChannels; ok is the verdict of the middleware. */
    method HandleConnect(rawID: string, key: string, ok: bool)
      modifies this, auth
      ensures View() == Finish(config, old(View()), Connecting(ToLower(rawID), key), ok)
    {
      var id := ToLower(rawID);
      FinishConnecting(config, View(), id, key, ok);
      hide Finish;
      if key != "" {
        auth.SetKey(id, key);
      }
      if id in gateways {
        return;
      }
      gateways := gateways + {id};
      if !ok {
        rejected := rejected + 1;
        return;
      }
      SpawnActivations(id, 0, ok);
    }

    /** ConnectGateway: IDs are taken as they are, and the empty one has no northbound side. */
    method ConnectGateway(ids: seq<Id>)
      modifies this
      ensures View() == ForceAll(config, old(View()), ids)
    {
      var i := 0;
      while i < |ids|
        invariant 0 <= i <= |ids|
        invariant ForceAll(config, View(), ids[i..]) == ForceAll(config, old(View()), ids)
      {
        var id := ids[i];
        assert ids[i..][0] == id && ids[i..][1..] == ids[i + 1..];
        i := i + 1;
        if id !in gateways {
          gateways := gateways + {id};
          SpawnActivations(id, if id != "" then 0 else config.northbound, true);
        }
      }
    }

    /** The loops over both lists of backends from the first one on, and the gauge. */
    method SpawnActivations(id: Id, first: nat, ghost ok: bool)
      requires first <= config.northbound
      modifies this
      ensures View() == Finish(config, old(View()), Spawning(id, first), ok)
    {
      var n := first;
      while n < config.northbound + config.southbound
        invariant 0 <= n <= config.northbound + config.southbound
        invariant Finish(config, View(), Spawning(id, n), ok) == Finish(config, old(View()), Spawning(id, first), ok)
      {
        ghost var before := View();
        var side := if n < config.northbound then North else South;
        pending := pending + multiset{(side, id)};
        n := n + 1;
        assert Turn(config, before, Spawning(id, n - 1), ok) == (View(), Spawning(id, n));
      }
      ghost var before := View();
      connected := connected + 1;
      assert Turn(config, before, Spawning(id, n), ok) == (View(), Idle);
    }

    /** The disconnect case of handleChannels. */
    method HandleDisconnect(rawID: string, key: string, ok: bool)
      requires HoldsOpenChannels(Doors())
      modifies this
      ensures View() == Finish(config, old(View()), Disconnecting(ToLower(rawID), key), ok)
      ensures HoldsOpenChannels(Doors())
    {
      var id := ToLower(rawID);
      ghost var s := View();
      FinishDisconnecting(config, s, id, key, ok);
      hide Finish, Deactivate, HoldsOpenChannels;
      if id !in gateways {
        return;
      }
      var valid := auth.ValidateKey(id, key);
      if !valid {
        return;
      }
      if !ok {
        return;
      }
      DeactivateSlot((North, id));
      DeactivateSlot((South, id));
      gateways := gateways - {id};
      connected := connected - 1;
    }
  }

  lemma FinishConnecting(c: Config, s: Shared, id: Id, key: string, ok: bool)
    ensures var keyed := if key == "" then s else s.(auth := WithKey(s.auth, id, key));
            var added := keyed.(gateways := s.gateways + {id});
            Finish(c, s, Connecting(id, key), ok) ==
            if id in s.gateways then keyed
            else if !ok then added.(rejected := s.rejected + 1)
            else Finish(c, added, Spawning(id, 0), ok)
  {
    var keyed := if key == "" then s else s.(auth := WithKey(s.auth, id, key));
    FinishTurn(c, s, Connecting(id, key), ok);
    FinishTurn(c, keyed, Keyed(id), ok);
    if id !in s.gateways {
      FinishTurn(c, keyed.(gateways := s.gateways + {id}), Added(id), ok);
    }
  }

  lemma FinishDisconnecting(c: Config, s: Shared, id: Id, key: string, ok: bool)
    ensures Finish(c, s, Disconnecting(id, key), ok) ==
            if id !in s.gateways || !Accepts(s.auth, id, key) || !ok then s
            else
              s.(channels := Deactivate(Deactivate(s.channels, (North, id)), (South, id)),
                 gateways := s.gateways - {id}, connected := s.connected - 1)
  {
    hide Deactivate;
    FinishTurn(c, s, Disconnecting(id, key), ok);
    if id in s.gateways {
      FinishTurn(c, s, Present(id, key), ok);
      if Accepts(s.auth, id, key) {
        FinishTurn(c, s, Allowed(id, key), ok);
        if ok {
          FinishApproved(c, s, id, key, ok);
        }
      }
    }
  }

  lemma FinishApproved(c: Config, s: Shared, id: Id, key: string, ok: bool)
    ensures Finish(c, s, Approved(id, key), ok) ==
            s.(channels := Deactivate(Deactivate(s.channels, (North, id)), (South, id)),
               gateways := s.gateways - {id}, connected := s.connected - 1)
  {
    hide Deactivate;
    var t1 := s.(channels := Deactivate(s.channels, (North, id)));
    var t2 := t1.(channels := Deactivate(t1.channels, (South, id)));
    var t3 := t2.(gateways := t2.gateways - {id});
    FinishTurn(c, s, Approved(id, key), ok);
    FinishTurn(c, t1, NorthClosed(id, key), ok);
    FinishTurn(c, t2, SouthClosed(id, key), ok);
    FinishTurn(c, t3, Removed(id), ok);
    hide Finish;
  }

  /**
    IDs that differ only in the case of letters are one gateway: whatever its connect met, a
    disconnect under the other ID that shows the right key and is not refused leaves neither.
   */
  lemma CaseMakesNoDifference(c: Config, s: Shared, a: Id, b: Id, key: string, ok: bool)
    requires SameButCase(a, b)
    ensures var joined := Finish(c, s, Connecting(ToLower(a), key), ok);
            && ToLower(a) == ToLower(b)
            && joined.gateways == s.gateways + {ToLower(b)}
            && (key != "" ==> KeyOf(joined.auth, ToLower(b)) == Key(key))
            && forall shown ::
                 var left := Finish(c, joined, Disconnecting(ToLower(b), shown), true);
                 if KeyOf(joined.auth, ToLower(b)) == NoKey || KeyOf(joined.auth, ToLower(b)) == Key(shown)
                 then left.gateways == s.gateways - {ToLower(a)} else left == joined
  {
    LowerForgetsCase(a, b);
    var id := ToLower(b);
    FinishConnecting(c, s, id, key, ok);
    var keyed := if key == "" then s else s.(auth := WithKey(s.auth, id, key));
    FinishSpawning(c, keyed.(gateways := s.gateways + {id}), id, 0, ok);
    var joined := Finish(c, s, Connecting(id, key), ok);
    assert joined.gateways == s.gateways + {id} by {
      if id in s.gateways { assert s.gateways + {id} == s.gateways; }
    }
    forall shown ensures
      var left := Finish(c, joined, Disconnecting(id, shown), true);
      if KeyOf(joined.auth, id) == NoKey || KeyOf(joined.auth, id) == Key(shown)
      then left.gateways == s.gateways - {id} else left == joined
    {
      FinishDisconnecting(c, joined, id, shown, true);
      assert s.gateways + {id} - {id} == s.gateways - {id};
    }
  }

  /** What a goroutine that has spawned n activations of a gateway has yet to start in a slot. */
  function ToStart(c: Config, id: Id, n: nat, slot: Slot): nat {
    if slot.1 != id then 0
    else if slot.0 == North then if n < c.northbound then c.northbound - n else 0
    else if n <= c.northbound then c.southbound
    else if n < c.northbound + c.southbound then c.northbound + c.southbound - n
    else 0
  }

  /** The loops over the backends start one activation each, northbound ones first, and count up. */
  lemma {:induction false} FinishSpawning(c: Config, s: Shared, id: Id, n: nat, ok: bool)
    ensures var t := Finish(c, s, Spawning(id, n), ok);
            && t == s.(pending := t.pending, connected := s.connected + 1)
            && forall slot: Slot :: t.pending[slot] == s.pending[slot] + ToStart(c, id, n, slot)
    decreases Left(c, Spawning(id, n))
  {
    FinishTurn(c, s, Spawning(id, n), ok);
    if n < c.northbound + c.southbound {
      var side := if n < c.northbound then North else South;
      var more := s.(pending := s.pending + multiset{(side, id)});
      assert Turn(c, s, Spawning(id, n), ok) == (more, Spawning(id, n + 1));
      hide Finish, Turn;
      FinishSpawning(c, more, id, n + 1, ok);
      forall slot: Slot ensures more.pending[slot] + ToStart(c, id, n + 1, slot) == s.pending[slot] + ToStart(c, id, n, slot) {
        assert more.pending[slot] == s.pending[slot] + if slot == (side, id) then 1 else 0;
      }
    }
  }

  /** The activations that a forced connect of a new gateway starts; the empty ID has no northbound side. */
  function Started(c: Config, slot: Slot): nat {
    if slot == (North, "") then 0 else if slot.0 == North then c.northbound else c.southbound
  }

  lemma ForcedConnect(c: Config, s: Shared, id: Id)
    requires id !in s.gateways
    ensures var joined := s.(gateways := s.gateways + {id});
            var t := Finish(c, joined, Spawning(id, FirstSpawn(c, id)), true);
            && t == joined.(pending := t.pending, connected := s.connected + 1)
            && forall slot: Slot :: t.pending[slot] == s.pending[slot] + if slot.1 == id then Started(c, slot) else 0
  {
    hide Finish;
    FinishSpawning(c, s.(gateways := s.gateways + {id}), id, FirstSpawn(c, id), true);
  }

  /**
    A forced connect joins all its IDs, starts one activation for each backend of those that are
    new, and counts them.
   */
  lemma {:induction false} ForcedConnects(c: Config, s: Shared, ids: seq<Id>)
    ensures var t := ForceAll(c, s, ids);
            && t == s.(gateways := s.gateways + (set id | id in ids), pending := t.pending, connected := t.connected)
            && t.connected == s.connected + |t.gateways| - |s.gateways|
            && forall slot: Slot :: t.pending[slot] ==
                 s.pending[slot] + if slot.1 in ids && slot.1 !in s.gateways then Started(c, slot) else 0
    decreases |ids|
  {
    hide Finish, FirstSpawn, Started;
    if ids == [] {
      assert s.gateways == s.gateways + set id | id in ids;
    } else {
      JoinsOneMore(s.gateways, ids);
      var id, rest := ids[0], ids[1..];
      if id in s.gateways {
        ForcedConnects(c, s, rest);
      } else {
        var joined := s.(gateways := s.gateways + {id});
        var one := Finish(c, joined, Spawning(id, FirstSpawn(c, id)), true);
        ForcedConnect(c, s, id);
        ForcedConnects(c, one, rest);
        assert ForceAll(c, s, ids) == ForceAll(c, one, rest);
        hide ForceAll;
      }
    }
  }

  /** The forced connect among the steps of the exchange, worked through, is that of one ID. */
  lemma ForceIsForcedConnect(c: Config, s: State, id: Id)
    requires Enabled(c, s, Force(id))
    ensures var t := Next(c, s, Force(id));
            t.workers == s.workers && Finish(c, t.shared, t.forced, true) == ForceAll(c, s.shared, [id])
  {
    hide Turn;
    assert [id][1..] == [];
  }

  lemma JoinsOneMore(gateways: set<Id>, ids: seq<Id>)
    requires ids != []
    ensures gateways + (set id | id in ids) == gateways + {ids[0]} + set id | id in ids[1..]
    ensures ids[0] in gateways ==> gateways + {ids[0]} == gateways
    ensures forall id :: id in ids <==> id == ids[0] || id in ids[1..]
  {
    assert ids == [ids[0]] + ids[1..];
  }

  lemma FinishTurn(c: Config, s: Shared, pc: Pc, ok: bool)
    requires pc != Idle
    ensures var (t, pc') := Turn(c, s, pc, ok);
            Finish(c, s, pc, ok) == if pc' == Idle then t else Finish(c, t, pc', ok)
  {
  }
}
