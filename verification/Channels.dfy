/**
  The done channels of activations (exchange/exchange.go): northboundDone and southboundDone as one
  map over side and gateway, the channels made so far, and close(), which panics on a closed one.
 */
module DoneChannels {
  import opened MemoryAuth

  datatype Side = North | South

  /** One entry of northboundDone or of southboundDone. */
  type Slot = (Side, Id)

  /** Channels are numbered in the order they are made. */
  type Channel = nat

  datatype Channels = Channels(
    done: map<Slot, seq<Channel>>,
    owner: map<Channel, Slot>,
    closed: set<Channel>,
    running: set<Channel>,
    stopped: bool,
    panicked: bool)

  /** close() on each channel in turn; closing a closed channel panics. */
  function CloseEach(s: Channels, channels: seq<Channel>): Channels
    decreases |channels|
  {
    if channels == [] || s.panicked then s
    else if channels[0] in s.closed then s.(panicked := true)
    else CloseEach(s.(closed := s.closed + {channels[0]}), channels[1..])
  }

  /** deactivateNorthbound and deactivateSouthbound */
  function Deactivate(s: Channels, slot: Slot): Channels {
    if slot in s.done then
      var t := CloseEach(s, s.done[slot]);
      t.(done := t.done - {slot})
    else s
  }

  function CloseSlots(s: Channels, order: seq<Slot>): Channels
    requires forall slot | slot in order :: slot in s.done
    ensures CloseSlots(s, order).done == s.done
    decreases |order|
  {
    if order == [] then s
    else
      CloseEachFrame(s, s.done[order[0]]);
      CloseSlots(CloseEach(s, s.done[order[0]]), order[1..])
  }

  /** The ranges of Stop over both maps, in whatever order Go visits them. */
  predicate IsSweepOf(order: seq<Slot>, done: map<Slot, seq<Channel>>) {
    && (set slot | slot in order) == done.Keys
    && forall i, j | 0 <= i < j < |order| :: order[i] != order[j]
  }

  /** Stop; a second call closes the closed b.done. */
  function StopAll(s: Channels, order: seq<Slot>): Channels
    requires IsSweepOf(order, s.done)
  {
    if s.stopped then s.(panicked := true)
    else CloseSlots(s.(stopped := true), order).(done := map[])
  }

  /** A goroutine makes its channel and appends it to its slot. */
  function Register(s: Channels, slot: Slot): Channels {
    var channel := |s.owner|;
    s.(owner := s.owner[channel := slot],
       running := s.running + {channel},
       done := s.done[slot := (if slot in s.done then s.done[slot] else []) + [channel]])
  }

  /** An activation whose channel was closed leaves its loop. */
  function Leave(s: Channels, channel: Channel): Channels {
    s.(running := s.running - {channel})
  }

  // ---------------------------------------------------------------- what they keep

  lemma {:induction false} CloseEachFrame(s: Channels, channels: seq<Channel>)
    ensures var t := CloseEach(s, channels); t == s.(closed := t.closed, panicked := t.panicked)
    decreases |channels|
  {
    if channels != [] && !s.panicked && channels[0] !in s.closed {
      CloseEachFrame(s.(closed := s.closed + {channels[0]}), channels[1..]);
    }
  }

  lemma {:induction false} CloseEachIsSafe(s: Channels, channels: seq<Channel>)
    requires !s.panicked
    requires forall i | 0 <= i < |channels| :: channels[i] !in s.closed
    requires forall i, j | 0 <= i < j < |channels| :: channels[i] != channels[j]
    ensures CloseEach(s, channels) == s.(closed := s.closed + set channel | channel in channels)
    decreases |channels|
  {
    if channels == [] {
      assert s.closed == s.closed + set channel | channel in channels;
    } else {
      var t := s.(closed := s.closed + {channels[0]});
      CloseEachIsSafe(t, channels[1..]);
      assert t.closed + (set channel | channel in channels[1..]) == s.closed + set channel | channel in channels;
    }
  }

  /** The channels held for a slot are open, were made for it, and occur once. */
  ghost predicate Held(s: Channels, slot: Slot)
    requires slot in s.done
  {
    var channels := s.done[slot];
    && (forall i | 0 <= i < |channels| ::
          channels[i] in s.owner && s.owner[channels[i]] == slot && channels[i] !in s.closed)
    && (forall i, j | 0 <= i < j < |channels| :: channels[i] != channels[j])
  }

  ghost predicate IsHeld(s: Channels, channel: Channel) {
    channel in s.owner && s.owner[channel] in s.done && channel in s.done[s.owner[channel]]
  }

  /** The two maps hold exactly the open channels, each once, under the slot it was made for. */
  ghost predicate HoldsOpenChannels(s: Channels) {
    && (forall channel: Channel :: channel in s.owner <==> channel < |s.owner|)
    && (forall slot | slot in s.done :: Held(s, slot))
    && (forall channel | channel in s.owner :: channel in s.closed || IsHeld(s, channel))
    && s.closed <= s.owner.Keys && s.running <= s.owner.Keys
  }

  lemma {:induction false} CloseSlotsIsSafe(s: Channels, order: seq<Slot>)
    requires !s.panicked
    requires forall slot | slot in order :: slot in s.done && Held(s, slot)
    requires forall i, j | 0 <= i < j < |order| :: order[i] != order[j]
    ensures var t := CloseSlots(s, order);
            && t == s.(closed := t.closed)
            && (forall channel :: channel in t.closed <==>
                  channel in s.closed || exists i :: 0 <= i < |order| && channel in s.done[order[i]])
    decreases |order|
  {
    if order != [] {
      var slot := order[0];
      assert Held(s, slot);
      CloseEachIsSafe(s, s.done[slot]);
      var t := CloseEach(s, s.done[slot]);
      forall other | other in order[1..] ensures Held(t, other) {
        assert Held(s, other) && other != slot;
      }
      CloseSlotsIsSafe(t, order[1..]);
      forall channel ensures (exists i :: 0 <= i < |order| && channel in s.done[order[i]])
                             <==> channel in s.done[slot] || exists i :: 0 <= i < |order[1..]| && channel in t.done[order[1..][i]]
      {
        if i :| 0 <= i < |order| && channel in s.done[order[i]] {
          if i > 0 { assert order[1..][i - 1] == order[i]; }
        }
      }
    }
  }

  lemma DeactivateKeepsHeld(s: Channels, slot: Slot)
    requires HoldsOpenChannels(s) && !s.panicked
    ensures HoldsOpenChannels(Deactivate(s, slot)) && !Deactivate(s, slot).panicked
    ensures slot !in Deactivate(s, slot).done
    ensures forall channel | channel in s.owner ::
              channel in Deactivate(s, slot).closed <==> channel in s.closed || s.owner[channel] == slot
    ensures var t := Deactivate(s, slot); t == s.(closed := t.closed, done := s.done - {slot})
  {
    var t := Deactivate(s, slot);
    if slot in s.done {
      assert Held(s, slot);
      CloseEachIsSafe(s, s.done[slot]);
      forall other | other in t.done ensures Held(t, other) {
        assert Held(s, other);
      }
      forall channel | channel in t.owner ensures channel in t.closed || IsHeld(t, channel) {
        assert channel in s.closed || IsHeld(s, channel);
      }
    } else {
      assert t.done == s.done - {slot};
    }
  }

  lemma StopKeepsHeld(s: Channels, order: seq<Slot>)
    requires HoldsOpenChannels(s) && !s.panicked && !s.stopped && IsSweepOf(order, s.done)
    ensures var t := StopAll(s, order);
            && t == s.(stopped := true, closed := s.owner.Keys, done := map[])
            && HoldsOpenChannels(t)
  {
    var u := s.(stopped := true);
    forall slot | slot in order ensures slot in u.done && Held(u, slot) {
      assert slot in s.done.Keys && Held(s, slot);
    }
    CloseSlotsIsSafe(u, order);
    var t := StopAll(s, order);
    forall channel | channel in s.owner ensures channel in t.closed {
      if channel !in s.closed {
        assert IsHeld(s, channel);
        assert s.owner[channel] in (set slot | slot in order);
      }
    }
    forall channel | channel in t.closed ensures channel in s.owner {
      if i :| 0 <= i < |order| && channel in u.done[order[i]] { assert Held(s, order[i]); }
    }
    assert t.closed == s.owner.Keys;
  }

  lemma RegisterKeepsHeld(s: Channels, slot: Slot)
    requires HoldsOpenChannels(s)
    ensures HoldsOpenChannels(Register(s, slot))
  {
    var t := Register(s, slot);
    RegisterOwns(s, slot);
    hide Held, IsHeld, Register;
    forall other | other in t.done ensures Held(t, other) {
      RegisterKeepsSlot(s, slot, other);
    }
    forall channel | channel in t.owner ensures channel in t.closed || IsHeld(t, channel) {
      RegisterHoldsChannel(s, slot, channel);
    }
  }

  lemma RegisterOwns(s: Channels, slot: Slot)
    requires HoldsOpenChannels(s)
    ensures var t := Register(s, slot);
            && (forall channel: Channel :: channel in t.owner <==> channel < |t.owner|)
            && t.closed <= t.owner.Keys && t.running <= t.owner.Keys
  {
  }

  lemma RegisterKeepsSlot(s: Channels, slot: Slot, other: Slot)
    requires HoldsOpenChannels(s)
    requires other in Register(s, slot).done
    ensures Held(Register(s, slot), other)
  {
  }

  lemma RegisterHoldsChannel(s: Channels, slot: Slot, channel: Channel)
    requires HoldsOpenChannels(s)
    requires channel in Register(s, slot).owner
    ensures var t := Register(s, slot); channel in t.closed || IsHeld(t, channel)
  {
  }

  lemma SameChannels(s: Channels, t: Channels)
    requires HoldsOpenChannels(s)
    requires t.done == s.done && t.owner == s.owner && t.closed == s.closed && t.running <= s.running
    ensures HoldsOpenChannels(t)
  {
  }
}
