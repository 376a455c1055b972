/**
  What one worker keeps true of the connected gauge (exchange/exchange.go): with the connects that
  were refused, it accounts for the gateway set. A second worker breaks this, and the exact limit
  is proved here.
 */
module Accounting {
  import opened MemoryAuth
  import opened Text
  import opened DoneChannels
  import opened Lifecycle

  function Worker(s: State): Pc {
    if s.workers == [] then Idle else s.workers[0]
  }

  predicate AllIdle(s: State) {
    s.forced == Idle && forall w | 0 <= w < |s.workers| :: s.workers[w] == Idle
  }

  // ---------------------------------------------------------------- the gauge

  /** A goroutine that changed the set but not yet the gauge. */
  function Owes(pc: Pc): int {
    if pc.Added? || pc.Spawning? then 1 else if pc.Removed? then -1 else 0
  }

  predicate IsLeaving(pc: Pc) {
    pc.Present? || pc.Allowed? || pc.Approved? || pc.NorthClosed? || pc.SouthClosed?
  }

  predicate Conserved(s: Shared) {
    s.connected + s.rejected == |s.gateways|
  }

  ghost predicate Balanced(s: State) {
    && |s.workers| <= 1
    && s.shared.connected + s.shared.rejected + Owes(Worker(s)) + Owes(s.forced) == |s.shared.gateways|
    && (IsLeaving(Worker(s)) ==> Worker(s).id in s.shared.gateways)
    && (s.forced.Idle? || s.forced.Spawning?)
  }

  /** What a turn of a goroutine does to the set and the gauge together. */
  lemma TurnBalances(c: Config, s: Shared, pc: Pc, ok: bool)
    requires IsLeaving(pc) ==> pc.id in s.gateways
    ensures var (t, pc') := Turn(c, s, pc, ok);
            && t.connected + t.rejected + Owes(pc') - |t.gateways| == s.connected + s.rejected + Owes(pc) - |s.gateways|
            && (IsLeaving(pc') ==> pc'.id in t.gateways)
            && (pc.Spawning? ==> (pc'.Idle? || pc'.Spawning?) && t.gateways == s.gateways)
  {
    hide Deactivate, WithKey, Accepts;
  }

  lemma NextBalances(c: Config, s: State, a: Action)
    requires Enabled(c, s, a) && Balanced(s)
    ensures Balanced(Next(c, s, a))
  {
    hide Turn, StopAll, IsSweepOf;
    match a {
      case Work(w, ok) => TurnBalances(c, s.shared, s.workers[w], ok);
      case WorkForced => TurnBalances(c, s.shared, s.forced, true);
      case _ =>
    }
  }

  lemma {:induction false} OneWorkerBalances(c: Config, h: seq<Action>, s: State)
    requires c.workers <= 1 && Reaches(c, h, s)
    ensures Balanced(s)
    decreases |h|
  {
    if h != [] {
      hide Balanced, Next;
      var p := ReachesBack(c, h, s);
      OneWorkerBalances(c, Past(h), p);
      NextBalances(c, p, Last(h));
    }
  }

  /** No Stop, and no message that the middleware refuses. */
  predicate Plain(h: seq<Action>) {
    forall i | 0 <= i < |h| :: !h[i].Stop? && (h[i].Work? ==> h[i].ok)
  }

  /** A worker that found its gateway connected runs the rest of the disconnect, others standing still. */
  lemma FinishDisconnect(c: Config, h: seq<Action>, s: State, w: nat, id: Id)
    returns (h': seq<Action>, s': State)
    requires Reaches(c, h, s) && !s.shared.channels.panicked
    requires w < |s.workers| && s.workers[w] == Present(id, "")
    requires s.shared.auth == map[] && s.shared.channels.done == map[]
    ensures Reaches(c, h', s')
    ensures s' == s.(workers := s.workers[w := Idle],
                     shared := s.shared.(gateways := s.shared.gateways - {id}, connected := s.shared.connected - 1))
    ensures Plain(h) ==> Plain(h')
  {
    hide Reaches;
    h', s' := h, s;
    var pcs := [Present(id, ""), Allowed(id, ""), Approved(id, ""), NorthClosed(id, ""), SouthClosed(id, ""), Removed(id)];
    h', s' := OneTurn(c, h', s', w, pcs[0], pcs[1], s.shared);
    h', s' := OneTurn(c, h', s', w, pcs[1], pcs[2], s.shared);
    h', s' := OneTurn(c, h', s', w, pcs[2], pcs[3], s.shared);
    h', s' := OneTurn(c, h', s', w, pcs[3], pcs[4], s.shared);
    var t := s.shared.(gateways := s.shared.gateways - {id});
    h', s' := OneTurn(c, h', s', w, pcs[4], pcs[5], t);
    h', s' := OneTurn(c, h', s', w, pcs[5], Idle, t.(connected := t.connected - 1));
    assert s'.workers == s.workers[w := Idle];
  }

  lemma OneTurn(c: Config, h: seq<Action>, s: State, w: nat, pc: Pc, pc': Pc, shared: Shared)
    returns (h': seq<Action>, s': State)
    requires Reaches(c, h, s) && !s.shared.channels.panicked
    requires w < |s.workers| && s.workers[w] == pc != Idle
    requires Turn(c, s.shared, pc, true) == (shared, pc')
    ensures Reaches(c, h', s') && s' == s.(workers := s.workers[w := pc'], shared := shared)
    ensures h' == h + [Work(w, true)]
  {
    hide Reaches, Turn;
    ReachesOn(c, h, s, Work(w, true));
    h', s' := h + [Work(w, true)], Next(c, s, Work(w, true));
  }

  /** Two workers that disconnect one gateway at once both count it down. */
  lemma TwoWorkersMiscount(c: Config) returns (h: seq<Action>, s: State)
    requires c.workers >= 2
    ensures Reaches(c, h, s) && AllIdle(s) && !Conserved(s.shared)
  {
    hide Reaches, Next, Enabled;
    var idle := Init(c);
    h, s := JoinRejected(c);
    var joined := FRESH.(gateways := {"a"}, rejected := 1);
    h, s := SeesConnected(c, h, s, 0, joined);
    h, s := SeesConnected(c, h, s, 1, joined);
    h, s := FinishDisconnect(c, h, s, 0, "a");
    h, s := FinishDisconnect(c, h, s, 1, "a");
    assert s.shared.connected == -2 && s.shared.rejected == 1;
    assert s.shared.gateways == {};
    assert s.workers == idle.workers;
  }

  /** A gateway joins the set although the middleware refuses its connect. */
  lemma JoinRejected(c: Config) returns (h: seq<Action>, s: State)
    requires c.workers >= 2
    ensures Reaches(c, h, s)
    ensures s == Init(c).(shared := FRESH.(gateways := {"a"}, rejected := 1))
  {
    hide Reaches;
    var a0, a3 := TakeConnect(0, "a", ""), Work(0, false);
    h, s := [], Init(c);
    assert Reaches(c, h, s) by { StartsAtInit(c); }
    assert ToLower("a") == "a";
    ReachesOn(c, h, s, a0);
    h, s := h + [a0], Next(c, s, a0);
    h, s := OneTurn(c, h, s, 0, Connecting("a", ""), Keyed("a"), FRESH);
    var t := FRESH.(gateways := {"a"});
    assert FRESH.gateways + {"a"} == {"a"};
    h, s := OneTurn(c, h, s, 0, Keyed("a"), Added("a"), t);
    ReachesOn(c, h, s, a3);
    h, s := h + [a3], Next(c, s, a3);
    assert s.workers == Init(c).workers;
  }

  lemma StartsAtInit(c: Config)
    ensures Reaches(c, [], Init(c))
  {
  }

  lemma SeesConnected(c: Config, h: seq<Action>, s: State, w: nat, shared: Shared)
    returns (h': seq<Action>, s': State)
    requires Reaches(c, h, s) && s.shared == shared && !shared.channels.panicked && "a" in shared.gateways
    requires w < |s.workers| && s.workers[w] == Idle
    ensures Reaches(c, h', s') && s' == s.(workers := s.workers[w := Present("a", "")])
    ensures Plain(h) ==> Plain(h')
  {
    hide Reaches;
    var a := TakeDisconnect(w, "a", "");
    assert ToLower("a") == "a";
    ReachesOn(c, h, s, a);
    h', s' := h + [a], Next(c, s, a);
    h', s' := OneTurn(c, h', s', w, Disconnecting("a", ""), Present("a", ""), shared);
    assert s'.workers == s.workers[w := Present("a", "")];
  }

  /**
    The connected gauge plus the rejected connects is the size of the gateway set in every
    reachable state between messages exactly when there is at most one worker.
   */
  lemma GaugeIsConservedByOneWorker(c: Config)
    ensures (forall h, s :: Reaches(c, h, s) && AllIdle(s) ==> Conserved(s.shared)) <==> c.workers <= 1
  {
    hide Reaches;
    if c.workers <= 1 {
      forall h, s | Reaches(c, h, s) && AllIdle(s) ensures Conserved(s.shared) {
        OneWorkerBalances(c, h, s);
      }
    } else {
      var h, s := TwoWorkersMiscount(c);
    }
  }
}
