/**
  Activations per gateway (exchange/exchange.go), with one worker: how many there are in every
  run, and when that is one for each backend of a connected gateway and none for any other ID. An
  activation that is outstanding while its slot is deactivated stays, and nothing prevents that.
 */
module Activations {
  import opened MemoryAuth
  import opened Text
  import opened DoneChannels
  import opened Lifecycle
  import opened Accounting

  function Registered(s: Shared, slot: Slot): nat {
    if slot in s.channels.done then |s.channels.done[slot]| else 0
  }

  /** The activations of a slot: goroutines yet to register, and registered ones. */
  function Active(s: Shared, slot: Slot): nat {
    s.pending[slot] + Registered(s, slot)
  }

  function Backends(c: Config, side: Side): nat {
    if side == North then c.northbound else c.southbound
  }

  /** What a connected gateway should have on a side, and any other ID should not. */
  function Wanted(c: Config, s: Shared, slot: Slot): nat {
    if slot.1 in s.gateways then Backends(c, slot.0) else 0
  }

  /** Of the first n activations of a gateway, those on one side; northbound ones come first. */
  function Spawned(c: Config, side: Side, n: nat): (k: nat)
    ensures k <= Backends(c, side)
  {
    if side == North then if n < c.northbound then n else c.northbound
    else if n < c.northbound then 0
    else if n < c.northbound + c.southbound then n - c.northbound
    else c.southbound
  }

  /** The activations of a slot that a goroutine at pc has yet to spawn. */
  function Unspawned(c: Config, pc: Pc, slot: Slot): nat {
    if pc.Idle? || pc.id != slot.1 then 0
    else if pc.Added? then Backends(c, slot.0)
    else if pc.Spawning? then Backends(c, slot.0) - Spawned(c, slot.0, pc.spawned)
    else 0
  }

  // ---------------------------------------------------------------- drift

  /** Started, or bound to be: what a deactivation of the slot does not close. */
  function Outstanding(c: Config, s: State, slot: Slot): nat {
    s.shared.pending[slot] + Unspawned(c, s.forced, slot)
  }

  predicate DeactivatesNow(s: State, a: Action, slot: Slot) {
    a.Work? && a.worker < |s.workers| && Deactivates(s.workers[a.worker], slot)
  }

  /** The middleware refuses the connect of a gateway that has joined the set. */
  predicate RefusesNow(s: State, a: Action, id: Id) {
    a.Work? && a.worker < |s.workers| && s.workers[a.worker].Added? && s.workers[a.worker].id == id && !a.ok
  }

  /**
    By how much the history leaves a slot off: over, by the activations that were outstanding at its
    last deactivation, and under, by those that refused connects did not start since.
   */
  function Drift(c: Config, h: seq<Action>, slot: Slot): int {
    if h == [] then 0
    else
      var p := After(c, Past(h));
      if DeactivatesNow(p, Last(h), slot) then Outstanding(c, p, slot)
      else if RefusesNow(p, Last(h), slot.1) then Drift(c, Past(h), slot) - Backends(c, slot.0)
      else Drift(c, Past(h), slot)
  }

  // ---------------------------------------------------------------- the count in every state

  /** The gateway is connected and the worker is not past the deactivation of this slot. */
  predicate Served(gateways: set<Id>, pc: Pc, slot: Slot) {
    slot.1 in gateways
    && !(pc.SouthClosed? && pc.id == slot.1) && !(pc.NorthClosed? && slot == (North, pc.id))
  }

  /** The activations there are and those under way, less those there should be. */
  function Surplus(c: Config, s: Shared, pc: Pc, forced: Pc, slot: Slot): int {
    Active(s, slot) + Unspawned(c, pc, slot) + Unspawned(c, forced, slot)
    - if Served(s.gateways, pc, slot) then Backends(c, slot.0) else 0
  }

  ghost predicate Fits(s: State) {
    && |s.workers| <= 1
    && (s.forced.Idle? || s.forced.Spawning?)
    && (IsLeaving(Worker(s)) ==> Worker(s).id in s.shared.gateways)
  }

  ghost predicate Counted(c: Config, h: seq<Action>, s: State) {
    Fits(s) && forall slot: Slot :: slot.1 != "" ==> Surplus(c, s.shared, Worker(s), s.forced, slot) == Drift(c, h, slot)
  }

  lemma DeactivateEmpties(k: Channels, slot: Slot)
    ensures Deactivate(k, slot).done == k.done - {slot}
  {
    if slot in k.done {
      CloseEachFrame(k, k.done[slot]);
    } else {
      assert k.done - {slot} == k.done;
    }
  }

  /** One more activation is spawned, or the last one was and the gauge goes up. */
  lemma SpawnCounts(c: Config, s: Shared, pc: Pc, ok: bool, slot: Slot)
    requires pc.Spawning?
    ensures var (t, pc') := Turn(c, s, pc, ok);
            && t.gateways == s.gateways && t.channels == s.channels
            && Active(t, slot) + Unspawned(c, pc', slot) == Active(s, slot) + Unspawned(c, pc, slot)
            && (pc' == Idle || pc'.Spawning?)
  {
    var side := if pc.spawned < c.northbound then North else South;
    var t := TurnSpawns(c, s, pc, ok, side);
    hide Turn;
    if pc.spawned < c.northbound + c.southbound {
      assert t.pending[slot] == s.pending[slot] + if slot == (side, pc.id) then 1 else 0;
    }
  }

  lemma TurnSpawns(c: Config, s: Shared, pc: Pc, ok: bool, side: Side) returns (t: Shared)
    requires pc.Spawning?
    requires side == if pc.spawned < c.northbound then North else South
    ensures if pc.spawned < c.northbound + c.southbound
            then t == s.(pending := s.pending + multiset{(side, pc.id)})
                 && Turn(c, s, pc, ok) == (t, Spawning(pc.id, pc.spawned + 1))
            else t == s.(connected := s.connected + 1) && Turn(c, s, pc, ok) == (t, Idle)
  {
    t := Turn(c, s, pc, ok).0;
  }

  lemma ClosingCounts(c: Config, s: Shared, pc: Pc, forced: Pc, ok: bool, slot: Slot)
    requires pc.Approved? || pc.NorthClosed?
    requires pc.id in s.gateways
    ensures var (t, pc') := Turn(c, s, pc, ok);
            Surplus(c, t, pc', forced, slot) ==
            if Deactivates(pc, slot) then s.pending[slot] + Unspawned(c, forced, slot) else Surplus(c, s, pc, forced, slot)
  {
    hide Deactivate;
    DeactivateEmpties(s.channels, (if pc.Approved? then North else South, pc.id));
  }

  lemma TurnCounts(c: Config, s: Shared, pc: Pc, forced: Pc, ok: bool, slot: Slot)
    requires IsLeaving(pc) ==> pc.id in s.gateways
    ensures var (t, pc') := Turn(c, s, pc, ok);
            Surplus(c, t, pc', forced, slot) ==
            if Deactivates(pc, slot) then s.pending[slot] + Unspawned(c, forced, slot)
            else if pc.Added? && !ok && pc.id == slot.1 then Surplus(c, s, pc, forced, slot) - Backends(c, slot.0)
            else Surplus(c, s, pc, forced, slot)
  {
    assert Spawned(c, slot.0, 0) == 0;
    hide Deactivate, Active, Spawned;
    if pc.Spawning? {
      SpawnCounts(c, s, pc, ok, slot);
    } else if pc.Approved? || pc.NorthClosed? {
      ClosingCounts(c, s, pc, forced, ok, slot);
    } else {
      SameActive(s, Turn(c, s, pc, ok).0, slot);
    }
  }

  lemma SameActive(s: Shared, t: Shared, slot: Slot)
    ensures t.pending == s.pending && t.channels == s.channels ==> Active(t, slot) == Active(s, slot)
  {
  }

  lemma ForcedCounts(c: Config, s: Shared, pc: Pc, forced: Pc, slot: Slot)
    requires forced.Spawning?
    ensures var (t, forced') := Turn(c, s, forced, true);
            Surplus(c, t, pc, forced', slot) == Surplus(c, s, pc, forced, slot) && (forced'.Idle? || forced'.Spawning?)
            && t.gateways == s.gateways
  {
    hide Turn, Active, Spawned;
    SpawnCounts(c, s, forced, true, slot);
  }

  lemma RegisterCounts(c: Config, s: Shared, pc: Pc, forced: Pc, registering: Slot, slot: Slot)
    requires registering in s.pending
    ensures Surplus(c, RegisterActivation(s, registering), pc, forced, slot) == Surplus(c, s, pc, forced, slot)
  {
    assert (s.pending - multiset{registering})[slot] == s.pending[slot] - if slot == registering then 1 else 0;
  }

  lemma ForceCounts(c: Config, s: State, id: Id, slot: Slot)
    requires Fits(s) && slot.1 != "" && Enabled(c, s, Force(id))
    ensures var t := Next(c, s, Force(id));
            Surplus(c, t.shared, Worker(t), t.forced, slot) == Surplus(c, s.shared, Worker(s), s.forced, slot)
  {
    hide Active;
    SameActive(s.shared, Next(c, s, Force(id)).shared, slot);
  }

  /** What each step does to the surplus of each slot. */
  lemma NextCounts(c: Config, s: State, a: Action, slot: Slot)
    requires Fits(s) && Enabled(c, s, a) && !a.Stop? && slot.1 != ""
    ensures var t := Next(c, s, a);
            && Surplus(c, t.shared, Worker(t), t.forced, slot) ==
               (if DeactivatesNow(s, a, slot) then Outstanding(c, s, slot)
                else if RefusesNow(s, a, slot.1) then Surplus(c, s.shared, Worker(s), s.forced, slot) - Backends(c, slot.0)
                else Surplus(c, s.shared, Worker(s), s.forced, slot))
  {
    match a {
      case Work(w, ok) =>
        hide Turn, Surplus;
        TurnCounts(c, s.shared, s.workers[0], s.forced, ok, slot);
      case WorkForced =>
        hide Turn, Surplus;
        ForcedCounts(c, s.shared, Worker(s), s.forced, slot);
      case Activate(registering) =>
        hide Surplus;
        RegisterCounts(c, s.shared, Worker(s), s.forced, registering, slot);
      case Force(id) =>
        hide Surplus;
        ForceCounts(c, s, id, slot);
      case _ =>
        hide Refresh;
    }
  }

  lemma NextFits(c: Config, s: State, a: Action)
    requires Fits(s) && Enabled(c, s, a)
    ensures Fits(Next(c, s, a))
  {
    hide Deactivate, WithKey, Accepts, StopAll, IsSweepOf, Refresh, Register;
  }

  lemma {:induction false} RunsAreCounted(c: Config, h: seq<Action>, s: State)
    requires c.workers <= 1 && Reaches(c, h, s) && Stops(h) == 0
    ensures Counted(c, h, s)
    decreases |h|
  {
    if h != [] {
      hide Next, Enabled, Surplus, DeactivatesNow, RefusesNow, Outstanding, Fits;
      var p := ReachesBack(c, h, s);
      RunsAreCounted(c, Past(h), p);
      ReachesAfter(c, Past(h), p);
      NextFits(c, p, Last(h));
      forall slot: Slot | slot.1 != "" ensures Surplus(c, s.shared, Worker(s), s.forced, slot) == Drift(c, h, slot) {
        NextCounts(c, p, Last(h), slot);
      }
    }
  }

  /**
    Between messages of any run before Stop, the activations of a slot are as many as wanted, plus
    the drift of the slot.
   */
  lemma ActivationsAreWantedPlusDrift(c: Config, h: seq<Action>, s: State, slot: Slot)
    requires c.workers <= 1 && Reaches(c, h, s) && Stops(h) == 0 && AllIdle(s) && slot.1 != ""
    ensures Active(s.shared, slot) == Wanted(c, s.shared, slot) + Drift(c, h, slot)
  {
    hide Reaches, Drift;
    RunsAreCounted(c, h, s);
    assert Surplus(c, s.shared, Worker(s), s.forced, slot) == Drift(c, h, slot);
  }

  // ---------------------------------------------------------------- when the count is right

  /** No connect of the gateway was refused by the middleware. */
  predicate NoneRefused(c: Config, h: seq<Action>, id: Id) {
    h == [] || (NoneRefused(c, Past(h), id) && !RefusesNow(After(c, Past(h)), Last(h), id))
  }

  /** Nothing was outstanding for the slot at its last deactivation, if there was one. */
  predicate Punctual(c: Config, h: seq<Action>, slot: Slot) {
    h == [] ||
    (var p := After(c, Past(h));
     if DeactivatesNow(p, Last(h), slot) then Outstanding(c, p, slot) == 0 else Punctual(c, Past(h), slot))
  }

  lemma {:induction false} DriftIsLateness(c: Config, h: seq<Action>, slot: Slot)
    requires NoneRefused(c, h, slot.1)
    ensures Drift(c, h, slot) >= 0
    ensures Drift(c, h, slot) == 0 <==> Punctual(c, h, slot)
  {
    if h != [] {
      hide After, Outstanding, DeactivatesNow, RefusesNow;
      DriftIsLateness(c, Past(h), slot);
    }
  }

  /**
    Between messages of a run without refused connects, a connected gateway has one activation for
    each backend of a side, and any other ID none, exactly when no activation of that slot was
    outstanding at its last deactivation.
   */
  lemma OneActivationPerBackend(c: Config, h: seq<Action>, s: State, slot: Slot)
    requires c.workers <= 1 && Reaches(c, h, s) && Stops(h) == 0 && AllIdle(s) && slot.1 != ""
    requires NoneRefused(c, h, slot.1)
    ensures Active(s.shared, slot) == Wanted(c, s.shared, slot) <==> Punctual(c, h, slot)
    ensures Active(s.shared, slot) >= Wanted(c, s.shared, slot)
  {
    hide Reaches, Drift, Punctual, NoneRefused, Active, Wanted;
    ActivationsAreWantedPlusDrift(c, h, s, slot);
    DriftIsLateness(c, h, slot);
  }

  // ---------------------------------------------------------------- why the order matters

  /** The spawning loop of a worker, others standing still. */
  lemma {:induction false} SpawnAll(c: Config, h: seq<Action>, s: State, id: Id, n: nat)
    returns (h': seq<Action>, s': State)
    requires Reaches(c, h, s) && !s.shared.channels.panicked && s.workers != [] && s.workers[0] == Spawning(id, n)
    requires n <= c.northbound + c.southbound
    ensures Reaches(c, h', s') && s' == s.(workers := s.workers[0 := Idle], shared := s'.shared)
    ensures s'.shared == s.shared.(connected := s.shared.connected + 1, pending := s'.shared.pending)
    ensures s.shared.pending <= s'.shared.pending
    ensures n < c.northbound ==> (North, id) in s'.shared.pending
    ensures n < c.northbound + c.southbound && c.southbound > 0 ==> (South, id) in s'.shared.pending
    ensures Plain(h) ==> Plain(h')
    decreases c.northbound + c.southbound - n
  {
    hide Reaches, Turn;
    var side := if n < c.northbound then North else South;
    var t := TurnSpawns(c, s.shared, Spawning(id, n), true, side);
    var pc' := Turn(c, s.shared, Spawning(id, n), true).1;
    h', s' := OneTurn(c, h, s, 0, Spawning(id, n), pc', t);
    if n < c.northbound + c.southbound {
      assert (side, id) in t.pending;
      h', s' := SpawnAll(c, h', s', id, n + 1);
      assert s'.workers == s.workers[0 := Idle];
    }
  }

  /** The activations of every slot are as many as wanted. */
  ghost predicate AsWanted(c: Config, s: Shared) {
    forall slot: Slot :: slot.1 != "" ==> Active(s, slot) == Wanted(c, s, slot)
  }

  /**
    An activation can outlive its connection: the goroutine that registers after the disconnect
    stays registered, on an open channel, for a gateway nobody knows.
   */
  lemma LateActivationLingers(c: Config) returns (h: seq<Action>, s: State, slot: Slot)
    requires c.workers >= 1 && c.northbound + c.southbound >= 1
    ensures Reaches(c, h, s) && Plain(h) && AllIdle(s)
    ensures slot.1 == "a" && slot.1 !in s.shared.gateways
    ensures Registered(s.shared, slot) == 1 && s.shared.channels.closed == {}
  {
    hide Reaches, Next;
    slot := (if c.northbound > 0 then North else South, "a");
    h, s := JoinAccepted(c);
    h, s := SpawnAll(c, h, s, "a", 0);
    h, s := SeesConnected(c, h, s, 0, s.shared);
    h, s := FinishDisconnect(c, h, s, 0, "a");
    h, s := RegisterLate(c, h, s, slot);
    assert s.workers == Init(c).workers;
  }

  lemma RegisterLate(c: Config, h: seq<Action>, s: State, slot: Slot) returns (h': seq<Action>, s': State)
    requires Reaches(c, h, s) && !s.shared.channels.panicked
    requires slot in s.shared.pending && s.shared.channels.done == map[]
    ensures Reaches(c, h', s') && s'.workers == s.workers && s'.forced == s.forced
    ensures Registered(s'.shared, slot) == 1 && s'.shared.channels.closed == s.shared.channels.closed
    ensures s'.shared.gateways == s.shared.gateways
    ensures Plain(h) ==> Plain(h')
  {
    hide Reaches;
    ReachesOn(c, h, s, Activate(slot));
    h', s' := h + [Activate(slot)], Next(c, s, Activate(slot));
  }

  lemma JoinAccepted(c: Config) returns (h: seq<Action>, s: State)
    requires c.workers >= 1
    ensures Reaches(c, h, s) && Plain(h)
    ensures s == State(FRESH.(gateways := {"a"}), Init(c).workers[0 := Spawning("a", 0)], Idle)
  {
    hide Reaches;
    var a0 := TakeConnect(0, "a", "");
    h, s := [], Init(c);
    assert Reaches(c, h, s) by { StartsAtInit(c); }
    assert ToLower("a") == "a";
    ReachesOn(c, h, s, a0);
    h, s := h + [a0], Next(c, s, a0);
    h, s := OneTurn(c, h, s, 0, Connecting("a", ""), Keyed("a"), FRESH);
    var t := FRESH.(gateways := {"a"});
    assert FRESH.gateways + {"a"} == {"a"};
    h, s := OneTurn(c, h, s, 0, Keyed("a"), Added("a"), t);
    h, s := OneTurn(c, h, s, 0, Added("a"), Spawning("a", 0), t);
  }

  // ---------------------------------------------------------------- exactly which exchanges

  lemma {:induction false} PlainIsOrderly(c: Config, h: seq<Action>, id: Id)
    requires Plain(h)
    ensures Stops(h) == 0 && NoneRefused(c, h, id)
  {
    if h != [] {
      PlainIsOrderly(c, Past(h), id);
    }
  }

  lemma {:induction false} NoWorkerIsPunctual(c: Config, h: seq<Action>, slot: Slot)
    requires c.workers == 0
    ensures |After(c, h).workers| == 0 && Punctual(c, h, slot)
  {
    if h != [] {
      hide Next, Enabled;
      NoWorkerIsPunctual(c, Past(h), slot);
      if Enabled(c, After(c, Past(h)), Last(h)) {
        SameWorkers(c, After(c, Past(h)), Last(h));
      }
    }
  }

  predicate Deserted(s: Shared) {
    s.pending == multiset{} && s.channels.done == map[]
  }

  lemma TurnSpawnsNothing(c: Config, s: Shared, pc: Pc, ok: bool)
    requires c.northbound + c.southbound == 0 && Deserted(s)
    ensures Deserted(Turn(c, s, pc, ok).0)
  {
    hide WithKey, Accepts;
  }

  lemma NextSpawnsNothing(c: Config, s: State, a: Action)
    requires c.northbound + c.southbound == 0 && Deserted(s.shared) && Enabled(c, s, a)
    ensures Deserted(Next(c, s, a).shared)
  {
    hide Turn, Refresh, CloseSlots;
    match a {
      case Work(w, ok) => TurnSpawnsNothing(c, s.shared, s.workers[w], ok);
      case WorkForced => TurnSpawnsNothing(c, s.shared, s.forced, true);
      case _ =>
    }
  }

  /** Without backends there is nothing to activate, whatever the number of workers. */
  lemma {:induction false} NoBackendsNoActivations(c: Config, h: seq<Action>, s: State)
    requires c.northbound + c.southbound == 0 && Reaches(c, h, s)
    ensures Deserted(s.shared)
    decreases |h|
  {
    if h != [] {
      hide Enabled, Next, Deserted;
      var p := ReachesBack(c, h, s);
      NoBackendsNoActivations(c, Past(h), p);
      NextSpawnsNothing(c, p, Last(h));
    } else {
      assert s.shared == FRESH;
    }
  }

  /** A history without Stop and without refused connects. */
  ghost predicate Smooth(c: Config, h: seq<Action>) {
    Stops(h) == 0 && forall id :: NoneRefused(c, h, id)
  }

  /**
    Activations are as wanted in every state between messages, in all runs without Stop and refused
    connects, only for exchanges without workers or without backends.
   */
  lemma AlwaysAsWanted(c: Config)
    ensures (forall h, s :: Reaches(c, h, s) && Smooth(c, h) && AllIdle(s) ==> AsWanted(c, s.shared))
            <==> c.workers == 0 || c.northbound + c.southbound == 0
  {
    hide Reaches, Stops, NoneRefused, Punctual;
    if c.workers == 0 || c.northbound + c.southbound == 0 {
      forall h, s, slot: Slot | Reaches(c, h, s) && Smooth(c, h) && AllIdle(s) && slot.1 != ""
        ensures Active(s.shared, slot) == Wanted(c, s.shared, slot)
      {
        if c.workers == 0 {
          NoWorkerIsPunctual(c, h, slot);
          OneActivationPerBackend(c, h, s, slot);
        } else {
          NoBackendsNoActivations(c, h, s);
        }
      }
    } else {
      var h, s, slot := LateActivationLingers(c);
      PlainIsOrderly(c, h, "a");
      forall id ensures NoneRefused(c, h, id) {
        PlainIsOrderly(c, h, id);
      }
      assert Smooth(c, h);
      assert Active(s.shared, slot) != Wanted(c, s.shared, slot);
      assert !AsWanted(c, s.shared);
    }
  }
}
