/**
  Who may disconnect a gateway (exchange/exchange.go with auth/memory_auth.go). A disconnect is
  checked against the last non-empty key that a worker stored for the gateway. With one worker
  that is the last key any connect gave; with two, a key can arrive behind a check that passed.
 */
module Keys {
  import opened MemoryAuth
  import opened Text
  import opened DoneChannels
  import opened Lifecycle
  import opened Accounting

  // ---------------------------------------------------------------- keys of a history

  /** The last non-empty key among the connects of h for a gateway, IDs compared in lower case. */
  function LatestKey(h: seq<Action>, id: Id): KeyOnFile {
    if h == [] then NoKey
    else
      match Last(h)
      case TakeConnect(_, raw, key) => if ToLower(raw) == id && key != "" then Key(key) else LatestKey(Past(h), id)
      case _ => LatestKey(Past(h), id)
  }

  datatype Taken = Nothing | Connect(id: Id, key: string) | Disconnect(id: Id, key: string)

  function Takes(a: Action, w: nat): Taken {
    match a
    case TakeConnect(v, raw, key) => if v == w then Connect(ToLower(raw), key) else Nothing
    case TakeDisconnect(v, raw, key) => if v == w then Disconnect(ToLower(raw), key) else Nothing
    case _ => Nothing
  }

  /** The message that worker w took last. */
  function LastTaken(h: seq<Action>, w: nat): Taken {
    if h == [] then Nothing
    else if Takes(Last(h), w) != Nothing then Takes(Last(h), w)
    else LastTaken(Past(h), w)
  }

  /** The message that worker w took, if it did not make a step for it yet. */
  function Unread(h: seq<Action>, w: nat): Taken {
    if h == [] || (Last(h).Work? && Last(h).worker == w) then Nothing
    else if Takes(Last(h), w) != Nothing then Takes(Last(h), w)
    else Unread(Past(h), w)
  }

  /** The last non-empty key that a worker stored for a gateway, which is its first step for a connect. */
  function StoredKey(h: seq<Action>, id: Id): KeyOnFile {
    if h == [] then NoKey
    else if !Last(h).Work? then StoredKey(Past(h), id)
    else
      match Unread(Past(h), Last(h).worker)
      case Connect(i, key) => if i == id && key != "" then Key(key) else StoredKey(Past(h), id)
      case _ => StoredKey(Past(h), id)
  }

  predicate ShowsKey(k: KeyOnFile, key: string) {
    k == NoKey || k == Key(key)
  }

  // ---------------------------------------------------------------- any number of workers

  predicate PastCheck(pc: Pc) {
    pc.Allowed? || pc.Approved? || pc.NorthClosed? || pc.SouthClosed?
  }

  /** What a worker holds is what it took. */
  predicate Holds(h: seq<Action>, w: nat, pc: Pc) {
    && (if pc.Connecting? then Unread(h, w) == Connect(pc.id, pc.key) else !Unread(h, w).Connect?)
    && (pc.Disconnecting? || pc.Present? || PastCheck(pc) ==> LastTaken(h, w) == Disconnect(pc.id, pc.key))
  }

  ghost predicate StandsAt(c: Config, h: seq<Action>, w: nat, pc: Pc) {
    exists s :: Reaches(c, h, s) && w < |s.workers| && s.workers[w] == pc
  }

  /** Step k of h is where worker w checked the message it holds, against the key stored by then. */
  ghost predicate CheckedAt(c: Config, h: seq<Action>, w: nat, id: Id, key: string, k: nat) {
    && k < |h| && h[k].Work? && h[k].worker == w
    && StandsAt(c, h[..k], w, Present(id, key)) && ShowsKey(StoredKey(h[..k], id), key)
    && forall j | k <= j < |h| :: Takes(h[j], w) == Nothing
  }

  ghost predicate Checked(c: Config, h: seq<Action>, w: nat, pc: Pc) {
    PastCheck(pc) ==> exists k :: CheckedAt(c, h, w, pc.id, pc.key, k)
  }

  ghost predicate Filed(c: Config, h: seq<Action>, s: State) {
    && |s.workers| == c.workers
    && (s.forced.Idle? || s.forced.Spawning?)
    && (forall w | 0 <= w < |s.workers| :: Holds(h, w, s.workers[w]) && Checked(c, h, w, s.workers[w]))
    && forall id :: KeyOf(s.shared.auth, id) == StoredKey(h, id)
  }

  /** What a turn does to the stored keys and to the standing of a disconnect. */
  lemma TurnKeys(c: Config, s: Shared, pc: Pc, ok: bool)
    ensures var (t, pc') := Turn(c, s, pc, ok);
            && t.auth == (if pc.Connecting? && pc.key != "" then WithKey(s.auth, pc.id, pc.key) else s.auth)
            && !pc'.Connecting? && !pc'.Disconnecting?
            && (pc'.Present? ==> pc.Disconnecting? && pc'.id == pc.id && pc'.key == pc.key)
            && (PastCheck(pc') ==>
                  && (PastCheck(pc) || (pc.Present? && Accepts(s.auth, pc.id, pc.key)))
                  && pc'.id == pc.id && pc'.key == pc.key)
  {
    hide Deactivate, WithKey, Accepts;
  }

  lemma SpawningKeepsAuth(c: Config, s: Shared, pc: Pc)
    requires pc.Idle? || pc.Spawning?
    ensures var (t, pc') := Turn(c, s, pc, true); t.auth == s.auth && (pc'.Idle? || pc'.Spawning?)
  {
  }

  lemma HistoryOn(h: seq<Action>, a: Action, w: nat, id: Id)
    ensures LastTaken(h + [a], w) == if Takes(a, w) != Nothing then Takes(a, w) else LastTaken(h, w)
    ensures Unread(h + [a], w) == if a.Work? && a.worker == w then Nothing else if Takes(a, w) != Nothing then Takes(a, w) else Unread(h, w)
    ensures StoredKey(h + [a], id) ==
            if a.Work? && Unread(h, a.worker).Connect? && Unread(h, a.worker).id == id && Unread(h, a.worker).key != ""
            then Key(Unread(h, a.worker).key) else StoredKey(h, id)
    ensures LatestKey(h + [a], id) == if a.TakeConnect? && ToLower(a.rawID) == id && a.key != "" then Key(a.key) else LatestKey(h, id)
  {
    assert Past(h + [a]) == h;
  }

  /** Where the others and the worker that acts stand after a step. */
  lemma NextHolds(c: Config, h: seq<Action>, s: State, a: Action, w: nat)
    requires Filed(c, h, s) && Enabled(c, s, a) && w < |s.workers|
    ensures var t := Next(c, s, a); |t.workers| == |s.workers| && Holds(h + [a], w, t.workers[w])
  {
    hide Turn, StopAll, IsSweepOf, Refresh, LastTaken, Unread, Checked, StoredKey;
    HistoryOn(h, a, w, "");
    assert Holds(h, w, s.workers[w]);
    if a.Work? {
      TurnKeys(c, s.shared, s.workers[a.worker], a.ok);
    }
  }

  lemma NextFiles(c: Config, h: seq<Action>, s: State, a: Action, id: Id)
    requires Filed(c, h, s) && Enabled(c, s, a)
    ensures var t := Next(c, s, a);
            (t.forced.Idle? || t.forced.Spawning?) && KeyOf(t.shared.auth, id) == StoredKey(h + [a], id)
  {
    hide Turn, StopAll, IsSweepOf, Refresh, LastTaken, Unread, Checked, StoredKey;
    HistoryOn(h, a, 0, id);
    match a {
      case Work(w, ok) =>
        assert Holds(h, w, s.workers[w]);
        TurnKeys(c, s.shared, s.workers[w], ok);
      case WorkForced => SpawningKeepsAuth(c, s.shared, s.forced);
      case FetchToken(i, now, exchanger, answer) => RefreshKeepsKeys(s.shared.auth, i, now, exchanger, answer);
      case _ =>
    }
  }

  lemma CheckedOn(c: Config, h: seq<Action>, a: Action, w: nat, id: Id, key: string, k: nat)
    requires CheckedAt(c, h, w, id, key, k) && Takes(a, w) == Nothing
    ensures CheckedAt(c, h + [a], w, id, key, k)
  {
    assert (h + [a])[..k] == h[..k];
  }

  lemma NextChecks(c: Config, h: seq<Action>, s: State, a: Action, w: nat)
    requires Filed(c, h, s) && Reaches(c, h, s) && Enabled(c, s, a) && w < |s.workers|
    ensures w < |Next(c, s, a).workers| && Checked(c, h + [a], w, Next(c, s, a).workers[w])
  {
    hide Turn, StopAll, IsSweepOf, Refresh, Reaches, StoredKey, Holds;
    var pc, pc' := s.workers[w], Next(c, s, a).workers[w];
    if a.Work? && a.worker == w {
      TurnKeys(c, s.shared, pc, a.ok);
    }
    if PastCheck(pc') {
      if PastCheck(pc) {
        assert Checked(c, h, w, pc);
        var k :| CheckedAt(c, h, w, pc.id, pc.key, k);
        CheckedOn(c, h, a, w, pc.id, pc.key, k);
      } else {
        assert pc == Present(pc'.id, pc'.key);
        assert (h + [a])[..|h|] == h;
        assert KeyOf(s.shared.auth, pc.id) == StoredKey(h, pc.id);
        assert StandsAt(c, h, w, pc);
        assert CheckedAt(c, h + [a], w, pc'.id, pc'.key, |h|);
      }
    }
  }

  /** In every reachable state the key on file for each gateway is the last non-empty one stored. */
  lemma {:induction false} KeysAreFiled(c: Config, h: seq<Action>, s: State)
    requires Reaches(c, h, s)
    ensures Filed(c, h, s)
    decreases |h|
  {
    if h != [] {
      hide Next, Holds, Checked, Enabled, StoredKey;
      var p := ReachesBack(c, h, s);
      KeysAreFiled(c, Past(h), p);
      var a := Last(h);
      assert h == Past(h) + [a];
      forall id: Id ensures (s.forced.Idle? || s.forced.Spawning?) && KeyOf(s.shared.auth, id) == StoredKey(h, id) {
        NextFiles(c, Past(h), p, a, id);
      }
      NextFiles(c, Past(h), p, a, "");
      SameWorkers(c, p, a);
      forall w | 0 <= w < |s.workers| ensures Holds(h, w, s.workers[w]) && Checked(c, h, w, s.workers[w]) {
        NextHolds(c, Past(h), p, a, w);
        NextChecks(c, Past(h), p, a, w);
      }
    }
  }

  /** The check of a disconnect passes exactly when it shows the last key stored, if there is one. */
  lemma CheckIsExact(c: Config, h: seq<Action>, s: State, w: nat, id: Id, key: string, ok: bool)
    requires Reaches(c, h, s) && w < |s.workers| && s.workers[w] == Present(id, key)
    ensures Turn(c, s.shared, s.workers[w], ok).1 == Allowed(id, key) <==> ShowsKey(StoredKey(h, id), key)
  {
    hide Reaches;
    KeysAreFiled(c, h, s);
    assert KeyOf(s.shared.auth, id) == StoredKey(h, id);
  }

  /** In the history h that leads to s, step a makes a gateway leave the set. */
  ghost predicate Leaves(c: Config, h: seq<Action>, s: State, a: Action, id: Id) {
    Reaches(c, h, s) && Enabled(c, s, a) && id in s.shared.gateways && id !in Next(c, s, a).shared.gateways
  }

  /**
    With any number of workers, a gateway leaves only by a worker whose last message is a disconnect
    for it, and that message passed its check, at step k, against the key stored by then.
   */
  lemma LeavesOnlyChecked(c: Config, h: seq<Action>, s: State, a: Action, id: Id) returns (w: nat, k: nat)
    requires Leaves(c, h, s, a, id)
    ensures a.Work? && a.worker == w && w < c.workers
    ensures LastTaken(h, w).Disconnect? && LastTaken(h, w).id == id
    ensures CheckedAt(c, h, w, id, LastTaken(h, w).key, k)
  {
    hide Turn, StopAll, IsSweepOf, Reaches, CheckedAt, LastTaken;
    KeysAreFiled(c, h, s);
    match a {
      case Work(v, ok) =>
        w := v;
        RemovesOwn(c, s.shared, s.workers[w], ok, id);
        assert Holds(h, w, s.workers[w]) && Checked(c, h, w, s.workers[w]);
        k :| CheckedAt(c, h, w, id, LastTaken(h, w).key, k);
      case WorkForced =>
        RemovesOwn(c, s.shared, s.forced, true, id);
    }
  }

  lemma RemovesOwn(c: Config, s: Shared, pc: Pc, ok: bool, id: Id)
    requires id in s.gateways && id !in Turn(c, s, pc, ok).0.gateways
    ensures pc.SouthClosed? && pc.id == id
  {
    hide Deactivate, WithKey, Accepts;
  }

  // ---------------------------------------------------------------- one worker

  /** With one worker a key is stored before anything else happens to a message. */
  lemma {:induction false} LatestIsStored(c: Config, h: seq<Action>, s: State, id: Id)
    requires c.workers <= 1 && Reaches(c, h, s)
    ensures LatestKey(h, id) ==
            if Unread(h, 0).Connect? && Unread(h, 0).id == id && Unread(h, 0).key != "" then Key(Unread(h, 0).key)
            else StoredKey(h, id)
    decreases |h|
  {
    if h != [] {
      hide Next, LatestKey, StoredKey, Unread;
      var p := ReachesBack(c, h, s);
      LatestIsStored(c, Past(h), p, id);
      KeysAreFiled(c, Past(h), p);
      assert h == Past(h) + [Last(h)];
      HistoryOn(Past(h), Last(h), 0, id);
      if Last(h).TakeConnect? || Last(h).TakeDisconnect? {
        assert Holds(Past(h), 0, p.workers[0]);
      }
    } else {
      assert Unread([], 0) == Nothing;
    }
  }

  lemma {:induction false} LatestUntouched(c: Config, h: seq<Action>, s: State, id: Id, k: nat)
    requires c.workers <= 1 && Reaches(c, h, s) && k <= |h|
    requires forall j | k <= j < |h| :: Takes(h[j], 0) == Nothing
    ensures LatestKey(h, id) == LatestKey(h[..k], id)
    decreases |h|
  {
    if k == |h| {
      assert h[..k] == h;
    } else {
      hide Next, LatestKey;
      var p := ReachesBack(c, h, s);
      LatestUntouched(c, Past(h), p, id, k);
      KeysAreFiled(c, Past(h), p);
      assert h == Past(h) + [Last(h)] && Past(h)[..k] == h[..k];
      HistoryOn(Past(h), Last(h), 0, id);
    }
  }

  /** The disconnect behind a removal showed the latest non-empty key, if any connect gave one. */
  ghost predicate ShowedLatest(h: seq<Action>, a: Action, id: Id) {
    && a.Work? && LastTaken(h, a.worker).Disconnect? && LastTaken(h, a.worker).id == id
    && ShowsKey(LatestKey(h, id), LastTaken(h, a.worker).key)
  }

  lemma LeavesOnlyWithTheLatestKey(c: Config, h: seq<Action>, s: State, a: Action, id: Id)
    requires c.workers <= 1 && Leaves(c, h, s, a, id)
    ensures ShowedLatest(h, a, id)
  {
    hide Reaches, Next, Enabled, LatestKey, StoredKey, LastTaken, Unread;
    var w, k := LeavesOnlyChecked(c, h, s, a, id);
    LatestUntouched(c, h, s, id, k);
    var key := LastTaken(h, w).key;
    var p :| Reaches(c, h[..k], p) && w < |p.workers| && p.workers[w] == Present(id, key);
    LatestIsStored(c, h[..k], p, id);
    KeysAreFiled(c, h[..k], p);
    assert Holds(h[..k], w, p.workers[w]);
  }

  // ---------------------------------------------------------------- two workers

  /** A worker that is idle takes a message. */
  lemma Take(c: Config, h: seq<Action>, s: State, w: nat, a: Action, pc: Pc) returns (h': seq<Action>, s': State)
    requires Reaches(c, h, s) && !s.shared.channels.panicked && w < |s.workers| && s.workers[w] == Idle
    requires (a == TakeDisconnect(w, "a", "") && pc == Disconnecting("a", ""))
          || (a == TakeConnect(w, "a", "k") && pc == Connecting("a", "k"))
    ensures Reaches(c, h', s') && s' == s.(workers := s.workers[w := pc]) && h' == h + [a]
  {
    hide Reaches;
    assert ToLower("a") == "a";
    ReachesOn(c, h, s, a);
    h', s' := h + [a], Next(c, s, a);
  }

  /** The last turns of a disconnect and the first of a connect, as far as the witness needs them. */
  lemma TurnsOfDisconnect(c: Config, s: Shared)
    requires s.channels == FRESH.channels && s.gateways == {"a"}
    ensures Turn(c, s, Disconnecting("a", ""), true) == (s, Present("a", ""))
    ensures s.auth == map[] ==> Turn(c, s, Present("a", ""), true) == (s, Allowed("a", ""))
    ensures Turn(c, s, Allowed("a", ""), true) == (s, Approved("a", ""))
    ensures Turn(c, s, Approved("a", ""), true) == (s, NorthClosed("a", ""))
    ensures Turn(c, s, NorthClosed("a", ""), true) == (s, SouthClosed("a", ""))
    ensures Turn(c, s, SouthClosed("a", ""), true).0.gateways == {}
    ensures Turn(c, s, Connecting("a", "k"), true) == (s.(auth := WithKey(s.auth, "a", "k")), Keyed("a"))
  {
    hide WithKey;
  }

  /** Worker 0 passes its check without a key, then worker 1 takes and stores one. */
  lemma PassesThenStores(c: Config) returns (h0: seq<Action>, h: seq<Action>, s: State)
    requires c.workers >= 2
    ensures Reaches(c, h, s) && h == ((((h0 + [TakeDisconnect(0, "a", "")]) + [Work(0, true)]) + [Work(0, true)])
                                      + [TakeConnect(1, "a", "k")]) + [Work(1, true)]
    ensures s.shared == FRESH.(gateways := {"a"}, rejected := 1, auth := WithKey(map[], "a", "k"))
    ensures |s.workers| >= 2 && s.workers[0] == Allowed("a", "")
  {
    hide Reaches, Turn, Next, Enabled;
    var t := FRESH.(gateways := {"a"}, rejected := 1);
    TurnsOfDisconnect(c, t);
    h0, s := JoinRejected(c);
    h, s := Take(c, h0, s, 0, TakeDisconnect(0, "a", ""), Disconnecting("a", ""));
    h, s := OneTurn(c, h, s, 0, Disconnecting("a", ""), Present("a", ""), t);
    h, s := OneTurn(c, h, s, 0, Present("a", ""), Allowed("a", ""), t);
    h, s := Take(c, h, s, 1, TakeConnect(1, "a", "k"), Connecting("a", "k"));
    h, s := OneTurn(c, h, s, 1, Connecting("a", "k"), Keyed("a"), t.(auth := WithKey(map[], "a", "k")));
  }

  /** A key can be taken, and stored, between a disconnect's check and its removal of the gateway. */
  lemma KeyArrivesBehindTheCheck(c: Config) returns (h: seq<Action>, s: State)
    requires c.workers >= 2
    ensures Leaves(c, h, s, Work(0, true), "a") && !ShowedLatest(h, Work(0, true), "a")
  {
    hide Reaches, Turn, WithKey, LatestKey, LastTaken;
    var h0;
    h0, h, s := PassesThenStores(c);
    var t := s.shared;
    TurnsOfDisconnect(c, t);
    h, s := OneTurn(c, h, s, 0, Allowed("a", ""), Approved("a", ""), t);
    h, s := OneTurn(c, h, s, 0, Approved("a", ""), NorthClosed("a", ""), t);
    h, s := OneTurn(c, h, s, 0, NorthClosed("a", ""), SouthClosed("a", ""), t);
    KeysOfTheWitness(h0, h);
  }

  lemma KeysOfTheWitness(h0: seq<Action>, h: seq<Action>)
    requires h == ((((((((h0 + [TakeDisconnect(0, "a", "")]) + [Work(0, true)]) + [Work(0, true)]) + [TakeConnect(1, "a", "k")])
                  + [Work(1, true)]) + [Work(0, true)]) + [Work(0, true)]) + [Work(0, true)])
    ensures LatestKey(h, "a") == Key("k") && LastTaken(h, 0) == Disconnect("a", "")
  {
    hide LatestKey, LastTaken, Unread, StoredKey;
    assert ToLower("a") == "a";
    var h1 := h0 + [TakeDisconnect(0, "a", "")];
    HistoryOn(h0, TakeDisconnect(0, "a", ""), 0, "a");
    HistoryOn(h1, Work(0, true), 0, "a");
    var h2 := h1 + [Work(0, true)];
    HistoryOn(h2, Work(0, true), 0, "a");
    var h3 := h2 + [Work(0, true)];
    HistoryOn(h3, TakeConnect(1, "a", "k"), 0, "a");
    var h4 := h3 + [TakeConnect(1, "a", "k")];
    HistoryOn(h4, Work(1, true), 0, "a");
    var h5 := h4 + [Work(1, true)];
    HistoryOn(h5, Work(0, true), 0, "a");
    var h6 := h5 + [Work(0, true)];
    HistoryOn(h6, Work(0, true), 0, "a");
    HistoryOn(h6 + [Work(0, true)], Work(0, true), 0, "a");
  }

  /**
    Every removal, in every run, is by a disconnect that showed the latest non-empty key of all
    connects for its gateway exactly when there is at most one worker.
   */
  lemma LatestKeyGuardsOneWorker(c: Config)
    ensures (forall h, s, a, id :: Leaves(c, h, s, a, id) ==> ShowedLatest(h, a, id)) <==> c.workers <= 1
  {
    hide Leaves, ShowedLatest;
    if c.workers <= 1 {
      forall h, s, a, id | Leaves(c, h, s, a, id) ensures ShowedLatest(h, a, id) {
        LeavesOnlyWithTheLatestKey(c, h, s, a, id);
      }
    } else {
      var h, s := KeyArrivesBehindTheCheck(c);
    }
  }
}
