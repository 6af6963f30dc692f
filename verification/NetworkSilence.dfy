/** The network can always be emptied without loss: what has not been dropped can still arrive. */
module NetworkSilence {
  import opened Addressing
  import opened Wiring
  import opened Network
  import opened NetworkTermination
  import opened NetworkDelivery
  import opened NetworkContinuations

  lemma MaxOf<T>(xs: set<T>, f: T -> nat) returns (most: nat)
    ensures forall x :: x in xs ==> f(x) <= most
    decreases |xs|
  {
    if xs == {} {
      most := 0;
    } else {
      var x :| x in xs;
      var rest := MaxOf(xs - {x}, f);
      most := if f(x) > rest then f(x) else rest;
      assert forall y :: y in xs ==> y == x || y in xs - {x};
    }
  }

  /** Every network has the bounds that the bounds on its runs are stated with. */
  lemma BoundsExist(t: Topology) returns (d: nat, b: nat)
    ensures WithinDistance(t, d) && FewerPorts(t, b)
  {
    var pairs := set s, h | s in t.ports.Keys && h in t.attach.Keys :: (s, h);
    d := MaxOf(pairs, (p: (SwitchId, Mac)) => t.dist(p.0, p.1));
    forall s, h | s in t.ports && h in t.attach
      ensures t.dist(s, h) <= d
    {
      assert (s, h) in pairs;
    }
    var ports := t.ports;
    var most := MaxOf(ports.Keys, (s: SwitchId) => if s in ports then |ports[s]| else 0);
    b := most + 2;
    forall s | s in t.ports
      ensures |t.ports[s]| < b
    {
      assert s in ports.Keys;
    }
  }

  /** While a copy is in flight the network can move it on, and need not drop it. */
  lemma SomethingCanMove(t: Topology, run: seq<Net>) returns (m: Move)
    requires LoopFree(t) && IsRun(t, run) && Last(run).flight != []
    ensures Enabled(t, Last(run), m) && !m.Send? && !m.Drop?
  {
    var n := Last(run);
    var c := n.flight[0];
    ReachedIsCorrect(t, run, n);
    assert c in n.flight && CopyCorrect(t, n, c);
    match c.at
    case OnWire(_, _) => m := Receive(0);
    case InSwitch(_) =>
      ForwardNeverFails(t, run, |run| - 1, 0);
      m := Forward(0);
    case ToStation(_) => m := Deliver(0);
  }

  lemma {:induction false} DrainFrom(t: Topology, d: nat, b: nat, run: seq<Net>) returns (whole: seq<Net>)
    requires LoopFree(t) && WithinDistance(t, d) && FewerPorts(t, b) && IsRun(t, run)
    ensures IsRun(t, whole) && run <= whole && Last(whole).flight == []
    ensures Last(whole).dropped == Last(run).dropped && Last(whole).sent == Last(run).sent
    decreases Potential(t, d, b, Last(run))
  {
    whole := run;
    if Last(run).flight != [] {
      var m := SomethingCanMove(t, run);
      var n := Last(run);
      ReachedIsCorrect(t, run, n);
      StepLowersPotential(t, d, b, n, m);
      var longer := GoOn(t, run, m, n, Next(t, n, m));
      whole := DrainFrom(t, d, b, longer);
    }
  }

  /** Every run can go on until nothing is in flight, with no frame sent and no copy dropped on the way. */
  lemma RunDrains(t: Topology, run: seq<Net>) returns (whole: seq<Net>)
    requires LoopFree(t) && IsRun(t, run)
    ensures IsRun(t, whole) && run <= whole && Last(whole).flight == []
    ensures Last(whole).dropped == Last(run).dropped && Last(whole).sent == Last(run).sent
  {
    var d, b := BoundsExist(t);
    whole := DrainFrom(t, d, b, run);
  }

  /** So a frame of which no copy was dropped can still arrive: a broadcast at each station but its sender,
      exactly once, and a frame for a station there. */
  lemma UndroppedFrameCanArrive(t: Topology, run: seq<Net>, id: nat) returns (whole: seq<Net>)
    requires LoopFree(t) && IsRun(t, run) && id < |Last(run).sent| && NoneLeft(id, Last(run).dropped)
    ensures IsRun(t, whole) && run <= whole
    ensures var f := Last(run).sent[id];
            && (f.dst in t.attach ==> Processed(id, Last(whole).received, f.dst) >= 1)
            && (f.dst == BROADCAST_MAC ==>
                  forall h :: h in t.attach && h != f.src ==> Processed(id, Last(whole).received, h) == 1)
  {
    whole := RunDrains(t, run);
    var f := Last(run).sent[id];
    if f.dst in t.attach {
      UnicastReachesItsStation(t, whole, |whole| - 1, id);
    }
    forall h | f.dst == BROADCAST_MAC && h in t.attach && h != f.src
      ensures Processed(id, Last(whole).received, h) == 1
    {
      BroadcastReachesEveryStationOnce(t, whole, |whole| - 1, id, h);
    }
  }
}
