/** The smallest network with a detour: a frame for one station can reach it twice. Looking up the interface
    when a frame is popped, and not when it was queued, lets a flooded copy turn round once its switch has
    learned the destination. */
module NetworkBounce {
  import opened Addressing
  import opened Wiring
  import opened Network
  import opened NetworkDelivery
  import opened NetworkContinuations
  import opened NetworkOnce

  /** Two stations on switch 0, and switch 1 plugged into it. */
  function TwoSwitches(a: Mac, b: Mac): Topology {
    Topology(
      map[0 := [Station(a), Station(b), Trunk(1, 0)], 1 := [Trunk(0, 2)]],
      map[a := (0, 0), b := (0, 1)],
      (s, h) => if s == 0 && h == b then 1 else 0,
      (s, h) => s)
  }

  predicate AreStations(a: Mac, b: Mac) {
    a != b && a != BROADCAST_MAC && b != BROADCAST_MAC
  }

  lemma TrunksGoBack(a: Mac, b: Mac, s: SwitchId, p: nat)
    requires AreStations(a, b) && HasPort(TwoSwitches(a, b), s, p) && TwoSwitches(a, b).ports[s][p].Trunk?
    ensures TrunkGoesBack(TwoSwitches(a, b).ports, s, p)
    ensures CrossingLaw(TwoSwitches(a, b), s, a, p) && CrossingLaw(TwoSwitches(a, b), s, b, p)
  {
  }

  lemma IsLoopFree(a: Mac, b: Mac)
    requires AreStations(a, b)
    ensures LoopFree(TwoSwitches(a, b))
  {
    var t := TwoSwitches(a, b);
    forall s, p: nat | HasPort(t, s, p) && t.ports[s][p].Trunk?
      ensures TrunkGoesBack(t.ports, s, p) && CrossingLaw(t, s, a, p) && CrossingLaw(t, s, b, p)
    {
      TrunksGoBack(a, b, s, p);
    }
  }

  /** For any two stations: a frame sent once to the second is processed by it twice, although nothing
      was lost. */
  lemma UnicastCanArriveTwice(a: Mac, b: Mac) returns (run: seq<Net>)
    requires AreStations(a, b)
    ensures LoopFree(TwoSwitches(a, b)) && IsRun(TwoSwitches(a, b), run)
    ensures var n := run[|run| - 1];
            |n.sent| > 0 && n.sent[0].dst == b && Processed(0, n.received, b) == 2 && n.dropped == []
  {
    var t := TwoSwitches(a, b);
    IsLoopFree(a, b);
    var begin := [Start(t)];
    assert Detour(t, Last(begin), a, b, 0, 2);
    run := DetourArrivesTwice(t, begin, a, b, [], 0, 2);
    BindingsNeverChange(t, run, 1, |run| - 1);
  }
}
