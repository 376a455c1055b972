/**
  Which antenna speaks for an uplink (backend/pktfwd/backend.go): the loop of
  newRXPacketFromRXPK over the per-antenna signals of a packet. Ratios and strengths are what
  the conversion to float32 made of them; JSON carries no NaN, so they are totally ordered.
 */
module Signals {
  datatype Signal = Signal(snr: real, rssi: real)

  /** `a` is heard at most as well as `b`: the ratio decides, the strength breaks ties. */
  predicate AtMost(a: Signal, b: Signal) {
    a.snr < b.snr || (a.snr == b.snr && a.rssi <= b.rssi)
  }

  /** `best` is the best-heard antenna of the packet, or `plain` when none is listed. */
  ghost predicate IsBest(plain: Signal, antennas: seq<Signal>, best: Signal) {
    if antennas == [] then best == plain
    else best in antennas && forall a :: a in antennas ==> AtMost(a, best)
  }

  /** There is only one best antenna, and the order in which antennas are listed does not matter. */
  lemma BestIgnoresOrder(plain: Signal, one: seq<Signal>, other: seq<Signal>, a: Signal, b: Signal)
    requires multiset(one) == multiset(other)
    requires IsBest(plain, one, a)
    ensures IsBest(plain, other, b) <==> a == b
  {
    assert |one| == |multiset(one)| == |multiset(other)| == |other|;
    assert forall s :: s in one <==> s in multiset(one);
    assert forall s :: s in other <==> s in multiset(other);
  }

  /** The signal reported for the gateway, and the antennas listed with it. */
  method BestSignal(plain: Signal, antennas: seq<Signal>) returns (best: Signal, listed: seq<Signal>)
    ensures IsBest(plain, antennas, best)
    ensures forall a :: a in antennas ==> a.snr <= best.snr && (a.snr == best.snr ==> a.rssi <= best.rssi)
    ensures listed == antennas
  {
    var snr, rssi := plain.snr, plain.rssi;
    listed := [];
    if |antennas| > 0 {
      snr, rssi := antennas[0].snr, antennas[0].rssi;
      for i := 0 to |antennas|
        invariant Signal(snr, rssi) in antennas
        invariant forall k :: 0 <= k < i ==> AtMost(antennas[k], Signal(snr, rssi))
        invariant listed == antennas[..i]
      {
        var sig := antennas[i];
        if sig.snr > snr {
          snr, rssi := sig.snr, sig.rssi;
        } else if sig.snr == snr && sig.rssi > rssi {
          rssi := sig.rssi;
        }
        listed := listed + [sig];
      }
    }
    best := Signal(snr, rssi);
  }
}
