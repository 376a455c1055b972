/**
  Source locks (backend/pktfwd/security.go): a gateway may change its UDP source only after it was
  silent for cacheTime. A background sweep deletes locks that expired; nobody can tell.
  Times are clock readings in ticks; `Set` reads the clock once to check and once to store.
 */
module SourceLocks {
  import opened Machine
  import opened Euis

  /** A UDP address; an IP is four or sixteen bytes, as in Go's net package. */
  datatype Addr = Addr(ip: Bytes, port: int)

  datatype Source = Source(lastSeen: int, addr: Addr)

  type Sources = map<Eui, Source>

  datatype Verdict = Accepted | WrongPort | WrongIP

  const V4_IN_V6: Bytes := [0, 0, 0, 0, 0, 0, 0, 0, 0, 0, 0xff, 0xff]

  /** IP.Equal: an IPv4 address equals its IPv6 mapping. */
  predicate SameIP(a: Bytes, b: Bytes) {
    if |a| == |b| then a == b
    else if |a| == 4 && |b| == 16 then b == V4_IN_V6 + a
    else |a| == 16 && |b| == 4 && a == V4_IN_V6 + b
  }

  lemma SameIPIsTransitive(a: Bytes, b: Bytes, c: Bytes)
    requires SameIP(a, b) && SameIP(b, c)
    ensures SameIP(a, c) && SameIP(b, a)
  {
    if |a| == |c| != |b| {
      assert |b| == 16 ==> b[12..] == a == c;
      assert |b| == 4 ==> a == c == V4_IN_V6 + b;
    }
  }

  datatype Config = Config(withPort: bool, cacheTime: int)

  function Check(c: Config, s: Sources, mac: Eui, addr: Addr, now: int): Verdict {
    if mac in s && now - s[mac].lastSeen < c.cacheTime then
      if c.withPort && s[mac].addr.port != addr.port then WrongPort
      else if !SameIP(s[mac].addr.ip, addr.ip) then WrongIP
      else Accepted
    else Accepted
  }

  /** What a call of Set does; a rejected one leaves every lock as it is, its own included. */
  function Lock(c: Config, s: Sources, e: Event): Sources
    requires e.Call?
  {
    if Check(c, s, e.mac, e.addr, e.checkedAt) == Accepted then s[e.mac := Source(e.storedAt, e.addr)] else s
  }

  /** A tick of the sweep; each lock has its own clock reading. */
  function Sweep(c: Config, s: Sources, at: map<Eui, int>): Sources {
    map mac | mac in s && !(mac in at && at[mac] - s[mac].lastSeen > c.cacheTime) :: s[mac]
  }

  datatype Event =
    | Call(mac: Eui, addr: Addr, checkedAt: int, storedAt: int)
    | Tick(at: map<Eui, int>, end: int)

  /** The table after a run, without its sweeps if `swept` is false. */
  function Run(c: Config, events: seq<Event>, swept: bool): Sources {
    if events == [] then map[]
    else
      var s := Run(c, events[..|events| - 1], swept);
      match events[|events| - 1]
      case Call(_, _, _, _) => Lock(c, s, events[|events| - 1])
      case Tick(at, _) => if swept then Sweep(c, s, at) else s
  }

  /** The answers to the calls of a run. */
  function Verdicts(c: Config, events: seq<Event>, swept: bool): (verdicts: seq<Verdict>)
    ensures events != [] && events[|events| - 1].Call? ==> verdicts != []
  {
    if events == [] then []
    else
      var before := events[..|events| - 1];
      match events[|events| - 1]
      case Call(mac, addr, checkedAt, _) =>
        Verdicts(c, before, swept) + [Check(c, Run(c, before, swept), mac, addr, checkedAt)]
      case Tick(_, _) => Verdicts(c, before, swept)
  }

  function Clock(events: seq<Event>): int {
    if events == [] then 0
    else
      match events[|events| - 1]
      case Call(_, _, _, storedAt) => storedAt
      case Tick(_, end) => end
  }

  /** The clock never goes back. */
  predicate Monotone(events: seq<Event>) {
    events == [] ||
    (var before := events[..|events| - 1];
     Monotone(before) &&
     match events[|events| - 1]
     case Call(_, _, checkedAt, storedAt) => Clock(before) <= checkedAt <= storedAt
     case Tick(at, end) => Clock(before) <= end && forall mac | mac in at :: Clock(before) <= at[mac] <= end)
  }

  // ---------------------------------------------------------------- the sweep is invisible

  /** The swept table lacks only locks that have expired. */
  ghost predicate Covers(c: Config, swept: Sources, full: Sources, now: int) {
    && (forall mac: Eui :: mac in swept ==> mac in full && full[mac] == swept[mac])
    && (forall mac: Eui :: mac in full && mac !in swept ==> now - full[mac].lastSeen > c.cacheTime)
  }

  lemma {:induction false} SweptCovers(c: Config, events: seq<Event>)
    requires Monotone(events)
    ensures Covers(c, Run(c, events, true), Run(c, events, false), Clock(events))
  {
    if events != [] {
      SweptCovers(c, events[..|events| - 1]);
    }
  }

  /** Every call gets the answer it would get if no lock were ever swept. */
  lemma {:induction false} SweepIsInvisible(c: Config, events: seq<Event>)
    requires Monotone(events)
    ensures Verdicts(c, events, true) == Verdicts(c, events, false)
  {
    if events != [] {
      SweepIsInvisible(c, events[..|events| - 1]);
      SweptCovers(c, events[..|events| - 1]);
    }
  }

  // ---------------------------------------------------------------- one source at a time

  /** The answer to the call at the end of a run. */
  function LastVerdict(c: Config, events: seq<Event>, swept: bool): Verdict
    requires events != [] && events[|events| - 1].Call?
  {
    var verdicts := Verdicts(c, events, swept);
    verdicts[|verdicts| - 1]
  }

  /** The calls of one gateway that were answered with Accepted, in order. */
  function AcceptedCalls(c: Config, events: seq<Event>, mac: Eui): seq<Event> {
    if events == [] then []
    else
      var before, e := events[..|events| - 1], events[|events| - 1];
      AcceptedCalls(c, before, mac) +
      if e.Call? && e.mac == mac && LastVerdict(c, events, true) == Accepted then [e] else []
  }

  predicate SameSource(c: Config, a: Addr, b: Addr) {
    SameIP(a.ip, b.ip) && (c.withPort ==> a.port == b.port)
  }

  /** Successive accepted calls, each checked before the lock of the one before it expired. */
  predicate Chained(c: Config, calls: seq<Event>, i: nat, j: nat)
    requires i <= j < |calls|
  {
    forall k | i < k <= j :: FollowsInTime(c, calls, k)
  }

  predicate FollowsInTime(c: Config, calls: seq<Event>, k: nat)
    requires 0 < k < |calls|
  {
    calls[k - 1].Call? && calls[k].Call? && calls[k].checkedAt - calls[k - 1].storedAt < c.cacheTime
  }

  lemma {:induction false} AcceptedCallsAreCalls(c: Config, events: seq<Event>, mac: Eui)
    ensures forall k | 0 <= k < |AcceptedCalls(c, events, mac)| :: AcceptedCalls(c, events, mac)[k].Call?
  {
    if events != [] {
      AcceptedCallsAreCalls(c, events[..|events| - 1], mac);
    }
  }

  /** The lock of a gateway is its last accepted call, unless it was swept after it expired. */
  lemma {:induction false} LockIsLastAccepted(c: Config, events: seq<Event>, mac: Eui)
    requires Monotone(events)
    ensures var calls, s := AcceptedCalls(c, events, mac), Run(c, events, false);
            && (mac in s <==> calls != [])
            && (calls != [] ==> calls[|calls| - 1].Call?
                                && s[mac] == Source(calls[|calls| - 1].storedAt, calls[|calls| - 1].addr))
  {
    if events != [] {
      LockIsLastAccepted(c, events[..|events| - 1], mac);
      SweptCovers(c, events[..|events| - 1]);
    }
  }

  lemma {:induction false} NextAcceptedIsSame(c: Config, events: seq<Event>, mac: Eui, k: nat)
    requires Monotone(events) && 0 < k < |AcceptedCalls(c, events, mac)|
    ensures var calls := AcceptedCalls(c, events, mac);
            && calls[k].Call? && calls[k - 1].Call?
            && (calls[k].checkedAt - calls[k - 1].storedAt < c.cacheTime ==> SameSource(c, calls[k - 1].addr, calls[k].addr))
  {
    var before := events[..|events| - 1];
    AcceptedCallsAreCalls(c, events, mac);
    if k < |AcceptedCalls(c, before, mac)| {
      NextAcceptedIsSame(c, before, mac, k);
    } else {
      LockIsLastAccepted(c, before, mac);
      SweptCovers(c, before);
    }
  }

  /** A chain of accepted calls uses one IP address, and with withPort one port. */
  lemma {:induction false} ChainKeepsItsSource(c: Config, events: seq<Event>, mac: Eui, i: nat, j: nat)
    requires Monotone(events) && i <= j < |AcceptedCalls(c, events, mac)|
    requires Chained(c, AcceptedCalls(c, events, mac), i, j)
    ensures var calls := AcceptedCalls(c, events, mac);
            calls[i].Call? && calls[j].Call? && SameSource(c, calls[i].addr, calls[j].addr)
    decreases j
  {
    AcceptedCallsAreCalls(c, events, mac);
    var calls := AcceptedCalls(c, events, mac);
    if i < j {
      ChainKeepsItsSource(c, events, mac, i, j - 1);
      assert FollowsInTime(c, calls, j);
      NextAcceptedIsSame(c, events, mac, j);
      SameIPIsTransitive(calls[i].addr.ip, calls[j - 1].addr.ip, calls[j].addr.ip);
    }
  }

  // ---------------------------------------------------------------- every verdict

  /** Why a call must be accepted: nobody holds the lock, it was held for too long, or by the same source. */
  predicate MayPass(c: Config, calls: seq<Event>, addr: Addr, checkedAt: int)
    requires forall k | 0 <= k < |calls| :: calls[k].Call?
  {
    calls == [] ||
    (var holder := calls[|calls| - 1];
     checkedAt - holder.storedAt >= c.cacheTime || (SameIP(holder.addr.ip, addr.ip) && (c.withPort ==> holder.addr.port == addr.port)))
  }

  /**
    In every run a call is accepted exactly when its gateway has no accepted call yet, or the last
    one was stored at least cacheTime ago, or came from the same source. Otherwise it is the port
    that is wrong if ports are locked and differ, and else the IP address.
   */
  lemma EveryVerdict(c: Config, events: seq<Event>, swept: bool)
    requires Monotone(events) && events != [] && events[|events| - 1].Call?
    ensures var e, before := events[|events| - 1], events[..|events| - 1];
            var calls := AcceptedCalls(c, before, e.mac);
            && (forall k | 0 <= k < |calls| :: calls[k].Call?)
            && LastVerdict(c, events, swept) ==
               if MayPass(c, calls, e.addr, e.checkedAt) then Accepted
               else if c.withPort && calls[|calls| - 1].addr.port != e.addr.port then WrongPort
               else WrongIP
  {
    var e, before := events[|events| - 1], events[..|events| - 1];
    AcceptedCallsAreCalls(c, before, e.mac);
    LockIsLastAccepted(c, before, e.mac);
    SweptCovers(c, before);
  }

  function To16(ip: Bytes): Bytes {
    if |ip| == 4 then [0, 0, 0, 0, 0, 0, 0, 0, 0, 0, 0xff, 0xff] + ip else ip
  }

  /** Addresses of four and of sixteen bytes are the same when they are in sixteen; others when they are equal. */
  lemma SameIPIsSameIn16(a: Bytes, b: Bytes)
    ensures SameIP(a, b) <==> To16(a) == To16(b)
  {
    if |a| == 4 && |b| == 4 && To16(a) == To16(b) {
      assert a == To16(a)[12..] == To16(b)[12..] == b;
    }
  }

  // ---------------------------------------------------------------- the code

  class Locks {
    const config: Config
    var sources: Sources

    constructor (config: Config)
      ensures this.config == config && sources == map[]
    {
      this.config, sources := config, map[];
    }

    method Set(mac: Eui, addr: Addr, checkedAt: int, storedAt: int) returns (verdict: Verdict)
      modifies this
      ensures verdict == Check(config, old(sources), mac, addr, checkedAt)
      ensures sources == Lock(config, old(sources), Call(mac, addr, checkedAt, storedAt))
      ensures verdict != Accepted ==> sources == old(sources)
    {
      if mac in sources {
        var existing := sources[mac];
        if checkedAt - existing.lastSeen < config.cacheTime {
          if config.withPort && existing.addr.port != addr.port {
            return WrongPort;
          }
          if !SameIP(existing.addr.ip, addr.ip) {
            return WrongIP;
          }
        }
      }
      sources := sources[mac := Source(storedAt, addr)];
      return Accepted;
    }

    /** One tick of the background goroutine: collect, then delete. */
    method SweepExpired(at: map<Eui, int>)
      requires sources.Keys <= at.Keys
      modifies this
      ensures sources == Sweep(config, old(sources), at)
      ensures forall mac :: mac in sources <==> mac in old(sources) && at[mac] - old(sources)[mac].lastSeen <= config.cacheTime
      ensures forall mac | mac in sources :: sources[mac] == old(sources)[mac]
    {
      var toDelete: seq<Eui> := [];
      var todo := sources.Keys;
      while todo != {}
        invariant todo <= sources.Keys
        invariant forall mac: Eui :: mac in toDelete <==>
                    mac in sources && mac !in todo && at[mac] - sources[mac].lastSeen > config.cacheTime
        decreases todo
      {
        var mac :| mac in todo;
        if at[mac] - sources[mac].lastSeen > config.cacheTime {
          toDelete := toDelete + [mac];
        }
        todo := todo - {mac};
      }
      ghost var before := sources;
      for i := 0 to |toDelete|
        invariant sources == map mac | mac in before && mac !in toDelete[..i] :: before[mac]
      {
        assert toDelete[..i + 1] == toDelete[..i] + [toDelete[i]];
        sources := sources - {toDelete[i]};
      }
      assert toDelete[..|toDelete|] == toDelete;
    }
  }
}
