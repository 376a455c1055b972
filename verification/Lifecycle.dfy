/**
  The gateway life cycle of the exchange (exchange/exchange.go) as interleaved steps. Workers take
  connect and disconnect messages and work through them one shared access at a time; a forced
  connect does the same on its own goroutine; activations register their done channel, and end
  when it is closed. Message contents, middleware verdicts and the order of steps are arbitrary.
 */
module Lifecycle {
  import opened MemoryAuth
  import opened DoneChannels
  import opened Text

  datatype Config = Config(workers: nat, northbound: nat, southbound: nat)

  /**
    Everything goroutines share; `pending` counts the activations that are yet to register, and
    `rejected` the connects whose middleware failed after their gateway had joined the set.
   */
  datatype Shared = Shared(
    gateways: set<Id>,
    auth: Store,
    channels: Channels,
    pending: multiset<Slot>,
    connected: int,
    rejected: nat)

  /** Where a goroutine stands in its message; the last five are past the check of the key. */
  datatype Pc =
    | Idle
    | Connecting(id: Id, key: string)
    | Keyed(id: Id)
    | Added(id: Id)
    | Spawning(id: Id, spawned: nat)
    | Disconnecting(id: Id, key: string)
    | Present(id: Id, key: string)
    | Allowed(id: Id, key: string)
    | Approved(id: Id, key: string)
    | NorthClosed(id: Id, key: string)
    | SouthClosed(id: Id, key: string)
    | Removed(id: Id)

  datatype State = State(shared: Shared, workers: seq<Pc>, forced: Pc)

  datatype Action =
    | TakeConnect(worker: nat, rawID: string, key: string)
    | TakeDisconnect(worker: nat, rawID: string, key: string)
    | Work(worker: nat, ok: bool)
    | Force(id: Id)
    | WorkForced
    | Activate(slot: Slot)
    | Exit(channel: Channel)
    | FetchToken(id: Id, now: int, exchanger: bool, answer: TokenAnswer)
    | Stop(order: seq<Slot>)

  // ---------------------------------------------------------------- steps

  function RegisterActivation(s: Shared, slot: Slot): Shared
    requires slot in s.pending
  {
    s.(pending := s.pending - multiset{slot}, channels := Register(s.channels, slot))
  }

  /** What a forced connect passes over: the empty ID is not subscribed northbound. */
  function FirstSpawn(c: Config, id: Id): nat {
    if id == "" then c.northbound else 0
  }

  /** The next step of a goroutine that works on a message; ok is the verdict of the middleware. */
  function Turn(c: Config, s: Shared, pc: Pc, ok: bool): (Shared, Pc) {
    match pc
    case Idle => (s, Idle)
    case Connecting(id, key) => (if key == "" then s else s.(auth := WithKey(s.auth, id, key)), Keyed(id))
    case Keyed(id) => if id in s.gateways then (s, Idle) else (s.(gateways := s.gateways + {id}), Added(id))
    case Added(id) => if ok then (s, Spawning(id, 0)) else (s.(rejected := s.rejected + 1), Idle)
    case Spawning(id, n) =>
      if n < c.northbound then (s.(pending := s.pending + multiset{(North, id)}), Spawning(id, n + 1))
      else if n < c.northbound + c.southbound then
        (s.(pending := s.pending + multiset{(South, id)}), Spawning(id, n + 1))
      else (s.(connected := s.connected + 1), Idle)
    case Disconnecting(id, key) => (s, if id in s.gateways then Present(id, key) else Idle)
    case Present(id, key) => (s, if Accepts(s.auth, id, key) then Allowed(id, key) else Idle)
    case Allowed(id, key) => (s, if ok then Approved(id, key) else Idle)
    case Approved(id, key) => (s.(channels := Deactivate(s.channels, (North, id))), NorthClosed(id, key))
    case NorthClosed(id, key) => (s.(channels := Deactivate(s.channels, (South, id))), SouthClosed(id, key))
    case SouthClosed(id, key) => (s.(gateways := s.gateways - {id}), Removed(id))
    case Removed(_) => (s.(connected := s.connected - 1), Idle)
  }

  predicate Enabled(c: Config, s: State, a: Action) {
    && !s.shared.channels.panicked
    && match a
       case TakeConnect(w, _, _) => w < |s.workers| && s.workers[w] == Idle
       case TakeDisconnect(w, _, _) => w < |s.workers| && s.workers[w] == Idle
       case Work(w, _) => w < |s.workers| && s.workers[w] != Idle
       case Force(_) => s.forced == Idle
       case WorkForced => s.forced != Idle
       case Activate(slot) => slot in s.shared.pending
       case Exit(channel) => channel in s.shared.channels.running && channel in s.shared.channels.closed
       case FetchToken(_, _, _, _) => true
       case Stop(order) => IsSweepOf(order, s.shared.channels.done)
  }

  function Next(c: Config, s: State, a: Action): State
    requires Enabled(c, s, a)
  {
    match a
    case TakeConnect(w, raw, key) => s.(workers := s.workers[w := Connecting(ToLower(raw), key)])
    case TakeDisconnect(w, raw, key) => s.(workers := s.workers[w := Disconnecting(ToLower(raw), key)])
    case Work(w, ok) =>
      var (shared, pc) := Turn(c, s.shared, s.workers[w], ok);
      s.(shared := shared, workers := s.workers[w := pc])
    case Force(id) =>
      if id in s.shared.gateways then s
      else s.(shared := s.shared.(gateways := s.shared.gateways + {id}), forced := Spawning(id, FirstSpawn(c, id)))
    case WorkForced =>
      var (shared, pc) := Turn(c, s.shared, s.forced, true);
      s.(shared := shared, forced := pc)
    case Activate(slot) => s.(shared := RegisterActivation(s.shared, slot))
    case Exit(channel) => s.(shared := s.shared.(channels := Leave(s.shared.channels, channel)))
    case FetchToken(id, now, exchanger, answer) =>
      s.(shared := s.shared.(auth := Refresh(s.shared.auth, id, now, exchanger, answer).0))
    case Stop(order) => s.(shared := s.shared.(channels := StopAll(s.shared.channels, order)))
  }

  const FRESH := Shared({}, map[], Channels(map[], map[], {}, {}, false, false), multiset{}, 0, 0)

  function Init(c: Config): State {
    State(FRESH, seq(c.workers, _ => Idle), Idle)
  }

  ghost predicate Steps(c: Config, s: State, a: Action, t: State) {
    Enabled(c, s, a) && t == Next(c, s, a)
  }

  function Past<T>(h: seq<T>): seq<T>
    requires h != []
  {
    h[..|h| - 1]
  }

  function Last<T>(h: seq<T>): T
    requires h != []
  {
    h[|h| - 1]
  }

  /** The history h can happen and leads to s. */
  ghost predicate Reaches(c: Config, h: seq<Action>, s: State)
    decreases |h|
  {
    if h == [] then s == Init(c) else exists p :: Reaches(c, Past(h), p) && Steps(c, p, Last(h), s)
  }

  lemma ReachesBack(c: Config, h: seq<Action>, s: State) returns (p: State)
    requires h != [] && Reaches(c, h, s)
    ensures Reaches(c, Past(h), p) && Steps(c, p, Last(h), s)
  {
    p :| Reaches(c, Past(h), p) && Steps(c, p, Last(h), s);
  }

  lemma ReachesOn(c: Config, h: seq<Action>, s: State, a: Action)
    requires Reaches(c, h, s) && Enabled(c, s, a)
    ensures Reaches(c, h + [a], Next(c, s, a))
  {
    assert Past(h + [a]) == h;
    assert Steps(c, s, Last(h + [a]), Next(c, s, a));
  }

  /** The state that h leads to, steps that cannot happen left out. */
  function After(c: Config, h: seq<Action>): State {
    if h == [] then Init(c)
    else if Enabled(c, After(c, Past(h)), Last(h)) then Next(c, After(c, Past(h)), Last(h))
    else After(c, Past(h))
  }

  lemma {:induction false} ReachesAfter(c: Config, h: seq<Action>, s: State)
    requires Reaches(c, h, s)
    ensures s == After(c, h)
    decreases |h|
  {
    if h != [] {
      hide Next, Enabled;
      var p := ReachesBack(c, h, s);
      ReachesAfter(c, Past(h), p);
    }
  }

  lemma SameWorkers(c: Config, s: State, a: Action)
    requires Enabled(c, s, a)
    ensures |Next(c, s, a).workers| == |s.workers|
  {
    hide Turn;
  }

  // ---------------------------------------------------------------- done channels

  function Stops(h: seq<Action>): nat {
    if h == [] then 0 else Stops(Past(h)) + if Last(h).Stop? then 1 else 0
  }

  /** Only two turns touch the done channels. */
  lemma TurnChannels(c: Config, s: Shared, pc: Pc, ok: bool)
    ensures Turn(c, s, pc, ok).0.channels ==
            if pc.Approved? then Deactivate(s.channels, (North, pc.id))
            else if pc.NorthClosed? then Deactivate(s.channels, (South, pc.id))
            else s.channels
  {
    hide Deactivate;
  }

  lemma TurnKeepsHeld(c: Config, s: Shared, pc: Pc, ok: bool)
    requires HoldsOpenChannels(s.channels) && !s.channels.panicked
    ensures var t := Turn(c, s, pc, ok).0.channels;
            HoldsOpenChannels(t) && !t.panicked && t.stopped == s.channels.stopped
  {
    hide HoldsOpenChannels, Deactivate, Turn;
    TurnChannels(c, s, pc, ok);
    if pc.Approved? || pc.NorthClosed? {
      DeactivateKeepsHeld(s.channels, (if pc.Approved? then North else South, pc.id));
    }
  }

  lemma NextKeepsHeld(c: Config, s: State, a: Action)
    requires HoldsOpenChannels(s.shared.channels) && Enabled(c, s, a)
    ensures var t := Next(c, s, a).shared.channels;
            && HoldsOpenChannels(t)
            && (t.stopped <==> s.shared.channels.stopped || a.Stop?)
            && (t.panicked <==> s.shared.channels.stopped && a.Stop?)
  {
    hide HoldsOpenChannels, Turn, IsSweepOf, CloseSlots;
    var k := s.shared.channels;
    match a {
      case Work(w, ok) => TurnKeepsHeld(c, s.shared, s.workers[w], ok);
      case WorkForced => TurnKeepsHeld(c, s.shared, s.forced, true);
      case Activate(slot) => RegisterKeepsHeld(k, slot);
      case Exit(channel) => SameChannels(k, Leave(k, channel));
      case Stop(order) =>
        if k.stopped {
          SameChannels(k, StopAll(k, order));
        } else {
          StopKeepsHeld(k, order);
        }
      case _ =>
    }
  }

  /**
    Under every interleaving, with any number of workers, the maps hold exactly the open
    channels, so closing them never panics. Of all closes only that of b.done can, in a second Stop.
   */
  lemma {:induction false} ChannelsAreClosedOnce(c: Config, h: seq<Action>, s: State)
    requires Reaches(c, h, s)
    ensures HoldsOpenChannels(s.shared.channels)
    ensures s.shared.channels.stopped <==> Stops(h) >= 1
    ensures s.shared.channels.panicked <==> Stops(h) >= 2
    decreases |h|
  {
    if h != [] {
      hide HoldsOpenChannels, Next;
      var p := ReachesBack(c, h, s);
      ChannelsAreClosedOnce(c, Past(h), p);
      NextKeepsHeld(c, p, Last(h));
      assert !p.shared.channels.panicked;
    }
  }

  /** The goroutine that ends the open activations of a slot is about to deactivate just that slot. */
  predicate Deactivates(pc: Pc, slot: Slot) {
    (pc.Approved? && slot == (North, pc.id)) || (pc.NorthClosed? && slot == (South, pc.id))
  }

  lemma TurnEndsOwn(c: Config, s: Shared, pc: Pc, ok: bool, channel: Channel)
    requires HoldsOpenChannels(s.channels) && !s.channels.panicked
    requires channel in s.channels.owner && channel !in s.channels.closed
    requires channel in Turn(c, s, pc, ok).0.channels.closed
    ensures Deactivates(pc, s.channels.owner[channel])
  {
    hide HoldsOpenChannels, Deactivate, Turn;
    TurnChannels(c, s, pc, ok);
    if pc.Approved? || pc.NorthClosed? {
      DeactivateKeepsHeld(s.channels, (if pc.Approved? then North else South, pc.id));
    }
  }

  /** An open activation is ended only by Stop or by the deactivation of its own gateway and side. */
  lemma EndedOnlyByItsOwn(c: Config, h: seq<Action>, s: State, a: Action, channel: Channel)
    requires Reaches(c, h, s) && Enabled(c, s, a)
    requires channel in s.shared.channels.owner && channel !in s.shared.channels.closed
    requires channel in Next(c, s, a).shared.channels.closed
    ensures a.Stop? || (a.Work? && Deactivates(s.workers[a.worker], s.shared.channels.owner[channel]))
  {
    hide HoldsOpenChannels, Deactivates, StopAll, Turn;
    ChannelsAreClosedOnce(c, h, s);
    ForcedOnlySpawns(c, h, s);
    TurnChannels(c, s.shared, s.forced, true);
    if a.Work? {
      TurnEndsOwn(c, s.shared, s.workers[a.worker], a.ok, channel);
    }
  }

  /** What a step does to the running activations: a new one starts, and one that was closed leaves. */
  lemma NextRunning(c: Config, s: State, a: Action)
    requires HoldsOpenChannels(s.shared.channels) && Enabled(c, s, a)
    ensures var k, t := s.shared.channels, Next(c, s, a).shared.channels;
            && k.closed <= t.closed
            && t.owner.Keys == (if a.Activate? then k.owner.Keys + {|k.owner|} else k.owner.Keys)
            && t.running == (if a.Activate? then k.running + {|k.owner|}
                             else if a.Exit? then k.running - {a.channel} else k.running)
            && (a.Exit? ==> a.channel in k.closed)
  {
    hide HoldsOpenChannels, Turn, IsSweepOf, StopAll, Deactivate, Refresh, Register;
    match a {
      case Work(w, ok) => TurnRunning(c, s.shared, s.workers[w], ok);
      case WorkForced => TurnRunning(c, s.shared, s.forced, true);
      case Activate(slot) => RegisterRunning(s.shared.channels, slot);
      case Stop(order) => StopRunning(s.shared.channels, order);
      case _ =>
    }
  }

  lemma RegisterRunning(k: Channels, slot: Slot)
    ensures var t := Register(k, slot);
            t.closed == k.closed && t.owner.Keys == k.owner.Keys + {|k.owner|} && t.running == k.running + {|k.owner|}
  {
  }

  lemma StopRunning(k: Channels, order: seq<Slot>)
    requires HoldsOpenChannels(k) && !k.panicked && IsSweepOf(order, k.done)
    ensures var t := StopAll(k, order); k.closed <= t.closed && t.owner == k.owner && t.running == k.running
  {
    hide HoldsOpenChannels, IsSweepOf, CloseSlots;
    if !k.stopped {
      StopKeepsHeld(k, order);
      ClosedWereMade(k);
    }
  }

  lemma ClosedWereMade(k: Channels)
    requires HoldsOpenChannels(k)
    ensures k.closed <= k.owner.Keys
  {
  }

  lemma TurnRunning(c: Config, s: Shared, pc: Pc, ok: bool)
    requires HoldsOpenChannels(s.channels) && !s.channels.panicked
    ensures var k, t := s.channels, Turn(c, s, pc, ok).0.channels;
            k.closed <= t.closed && t.owner == k.owner && t.running == k.running
  {
    hide Deactivate, Turn;
    TurnChannels(c, s, pc, ok);
    if pc.Approved? || pc.NorthClosed? {
      DeactivateKeepsHeld(s.channels, (if pc.Approved? then North else South, pc.id));
    }
  }

  /** In every run an activation runs as long as its channel is open. */
  lemma {:induction false} OpenMeansRunning(c: Config, h: seq<Action>, s: State, channel: Channel)
    requires Reaches(c, h, s)
    requires channel in s.shared.channels.owner && channel !in s.shared.channels.closed
    ensures channel in s.shared.channels.running
    decreases |h|
  {
    if h != [] {
      hide Next, HoldsOpenChannels;
      var p := ReachesBack(c, h, s);
      ChannelsAreClosedOnce(c, Past(h), p);
      NextRunning(c, p, Last(h));
      if channel in p.shared.channels.owner {
        OpenMeansRunning(c, Past(h), p, channel);
      }
    }
  }

  lemma {:induction false} ForcedOnlySpawns(c: Config, h: seq<Action>, s: State)
    requires Reaches(c, h, s)
    ensures s.forced.Idle? || s.forced.Spawning?
    decreases |h|
  {
    if h != [] {
      var p := ReachesBack(c, h, s);
      ForcedOnlySpawns(c, Past(h), p);
    }
  }
}
