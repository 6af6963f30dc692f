/** No frame circulates forever: every forward takes a copy away from its source or, once a switch knows
    the destination, toward it, and the second never turns back into the first. */
module NetworkTermination {
  import opened Frames
  import opened SwitchTable
  import opened Wiring
  import opened Network

  /** No station is more than `d` trunks from any switch. */
  ghost predicate WithinDistance(t: Topology, d: nat) {
    forall s, h :: s in t.ports && h in t.attach ==> t.dist(s, h) <= d
  }

  /** Fewer than `b` interfaces on any switch. */
  ghost predicate FewerPorts(t: Topology, b: nat) {
    b >= 2 && forall s :: s in t.ports ==> |t.ports[s]| < b
  }

  /** Links a copy at switch `s` can still cross. */
  ghost function Remaining(t: Topology, d: nat, n: Net, s: SwitchId, f: Frame): int {
    if Knows(n, s, f.dst) then t.dist(s, f.dst) + 1 else d - t.dist(s, f.src) + d + 1
  }

  /** Steps a copy can still take, counting receiving and forwarding apart. */
  ghost function Rank(t: Topology, d: nat, n: Net, c: Copy): int {
    match c.at
    case OnWire(s, _) => 2 * Remaining(t, d, n, s, c.frame) + 1
    case InSwitch(s) => 2 * Remaining(t, d, n, s, c.frame)
    case ToStation(_) => 1
  }

  /** One forward. A known destination comes one trunk nearer, at a switch that knows it too; until
      then the source falls one trunk further behind. */
  lemma ForwardMakesProgress(t: Topology, n: Net, s: SwitchId, p: nat, f: Frame)
    requires LoopFree(t) && TablesCorrect(t, n) && s in t.ports && Knows(n, s, f.src)
    requires p in Interfaces(t, n, s, f)
    ensures HasPort(t, s, p)
    ensures t.ports[s][p].Station? && Knows(n, s, f.dst) ==> t.ports[s][p].host == f.dst
    ensures t.ports[s][p].Station? && !Knows(n, s, f.dst) ==> t.ports[s][p].host != f.src
    ensures t.ports[s][p].Trunk? && Knows(n, s, f.dst) ==>
      Knows(n, t.ports[s][p].sw, f.dst) && t.dist(t.ports[s][p].sw, f.dst) + 1 == t.dist(s, f.dst)
    ensures t.ports[s][p].Trunk? && !Knows(n, s, f.dst) ==>
      t.dist(t.ports[s][p].sw, f.src) == t.dist(s, f.src) + 1
  {
    InterfacesExist(t, n, s, f);
    assert EntryCorrect(t, n, s, f.src);
    if Knows(n, s, f.dst) {
      assert EntryCorrect(t, n, s, f.dst);
      if t.ports[s][p].Trunk? {
        assert TrunkGoesBack(t.ports, s, p) && CrossingLaw(t, s, f.dst, p);
      }
    } else {
      FloodPortsAreAllButOne(|t.ports[s]|, Lookup(n.tables[s], f.src));
      if t.ports[s][p].Trunk? {
        assert TrunkGoesBack(t.ports, s, p) && CrossingLaw(t, s, f.src, p);
      }
    }
  }

  lemma RemainingIsPositive(t: Topology, d: nat, n: Net, s: SwitchId, f: Frame)
    requires LoopFree(t) && TablesCorrect(t, n) && WithinDistance(t, d) && s in t.ports && f.src in t.attach
    ensures 1 <= Remaining(t, d, n, s, f) <= 2 * d + 1
  {
    if Knows(n, s, f.dst) {
      assert EntryCorrect(t, n, s, f.dst);
    }
  }

  lemma RankIsPositive(t: Topology, d: nat, n: Net, c: Copy)
    requires LoopFree(t) && TablesCorrect(t, n) && WithinDistance(t, d) && CopyCorrect(t, n, c)
    ensures Rank(t, d, n, c) >= 1
  {
    match c.at
    case OnWire(s, _) => RemainingIsPositive(t, d, n, s, c.frame);
    case InSwitch(s) => RemainingIsPositive(t, d, n, s, c.frame);
    case ToStation(_) =>
  }

  lemma ForwardLowersRank(t: Topology, d: nat, n: Net, p: nat, c: Copy)
    requires LoopFree(t) && TablesCorrect(t, n) && WithinDistance(t, d) && CopyCorrect(t, n, c) && c.at.InSwitch?
    requires p in Interfaces(t, n, c.at.s, c.frame)
    ensures HasPort(t, c.at.s, p)
    ensures Rank(t, d, n, Copy(c.frame, FarEnd(t, c.at.s, p), c.hops + 1)) < Rank(t, d, n, c)
  {
    var s := c.at.s;
    ForwardMakesProgress(t, n, s, p, c.frame);
    RemainingIsPositive(t, d, n, s, c.frame);
    if t.ports[s][p].Trunk? {
      var s' := t.ports[s][p].sw;
      assert TrunkGoesBack(t.ports, s, p);
      if Knows(n, s', c.frame.dst) {
        assert EntryCorrect(t, n, s', c.frame.dst);
      }
    }
  }

  /** Learning can only shorten what is left of a copy's way. */
  lemma GrowthLowersRank(t: Topology, d: nat, n: Net, n': Net, c: Copy)
    requires LoopFree(t) && WithinDistance(t, d) && TablesCorrect(t, n') && Grows(n, n') && CopyCorrect(t, n, c)
    ensures Rank(t, d, n', c) <= Rank(t, d, n, c)
  {
    if !c.at.ToStation? && Knows(n', c.at.s, c.frame.dst) {
      assert EntryCorrect(t, n', c.at.s, c.frame.dst);
    }
  }

  function Pow(b: nat, e: nat): nat {
    if e == 0 then 1 else b * Pow(b, e - 1)
  }

  lemma {:induction false} MulGrows(k: nat, b: nat, x: nat)
    requires k < b && x >= 1
    ensures k * x < b * x
    decreases b
  {
    if k < b - 1 {
      MulGrows(k, b - 1, x);
    }
    assert b * x == (b - 1) * x + x;
  }

  lemma MulPowGrows(k: nat, b: nat, e: nat)
    requires k < b && b >= 2
    ensures k * Pow(b, e) < Pow(b, e + 1)
  {
    PowGrows(b, 0, e);
    MulGrows(k, b, Pow(b, e));
  }

  lemma {:induction false} PowGrows(b: nat, e: nat, e': nat)
    requires b >= 2 && e <= e'
    ensures 1 <= Pow(b, e) <= Pow(b, e') && (e < e' ==> Pow(b, e) < Pow(b, e'))
    decreases e + e'
  {
    if e < e' {
      PowGrows(b, e, e' - 1);
      MulGrows(1, b, Pow(b, e' - 1));
    } else if e > 0 {
      PowGrows(b, e - 1, e' - 1);
      MulGrows(1, b, Pow(b, e - 1));
    }
  }

  ghost function Weight(t: Topology, d: nat, b: nat, n: Net, c: Copy): nat {
    if Rank(t, d, n, c) < 0 then 0 else Pow(b, Rank(t, d, n, c))
  }

  ghost function TotalWeight(t: Topology, d: nat, b: nat, n: Net, cs: seq<Copy>): nat {
    if cs == [] then 0 else Weight(t, d, b, n, cs[0]) + TotalWeight(t, d, b, n, cs[1..])
  }

  /** What every step except a send lowers. */
  ghost function Potential(t: Topology, d: nat, b: nat, n: Net): nat {
    TotalWeight(t, d, b, n, n.flight)
  }

  lemma {:induction false} TotalWeightOfParts(t: Topology, d: nat, b: nat, n: Net, x: seq<Copy>, y: seq<Copy>)
    ensures TotalWeight(t, d, b, n, x + y) == TotalWeight(t, d, b, n, x) + TotalWeight(t, d, b, n, y)
  {
    if x == [] {
      assert x + y == y;
    } else {
      TotalWeightOfParts(t, d, b, n, x[1..], y);
      assert (x + y)[1..] == x[1..] + y;
    }
  }

  lemma TotalWeightWithout(t: Topology, d: nat, b: nat, n: Net, cs: seq<Copy>, i: nat)
    requires i < |cs|
    ensures TotalWeight(t, d, b, n, cs) == TotalWeight(t, d, b, n, Without(cs, i)) + Weight(t, d, b, n, cs[i])
  {
    TotalWeightOfParts(t, d, b, n, cs[..i], cs[i + 1..]);
    TotalWeightOfParts(t, d, b, n, cs[..i], cs[i..]);
    assert cs == cs[..i] + cs[i..] && cs[i..][1..] == cs[i + 1..];
  }

  lemma {:induction false} TotalWeightLowered(t: Topology, d: nat, b: nat, n: Net, n': Net, cs: seq<Copy>)
    requires b >= 2 && forall c :: c in cs ==> 0 <= Rank(t, d, n', c) <= Rank(t, d, n, c)
    ensures TotalWeight(t, d, b, n', cs) <= TotalWeight(t, d, b, n, cs)
  {
    if cs != [] {
      PowGrows(b, Rank(t, d, n', cs[0]), Rank(t, d, n, cs[0]));
      TotalWeightLowered(t, d, b, n, n', cs[1..]);
    }
  }

  lemma OneMore(k: nat, x: nat)
    ensures (k + 1) * x == x + k * x
  {
  }

  /** A copy of rank `r + 1` outweighs all the copies a forward replaces it with. */
  lemma {:induction false} CopiesOutWeighLess(t: Topology, d: nat, b: nat, n: Net, s: SwitchId,
                                              ports: seq<nat>, c: Copy, r: nat)
    requires b >= 2
    requires forall p :: p in ports ==>
               HasPort(t, s, p) && Rank(t, d, n, Copy(c.frame, FarEnd(t, s, p), c.hops + 1)) <= r
    ensures TotalWeight(t, d, b, n, CopiesOut(t, s, ports, c)) <= |ports| * Pow(b, r)
  {
    if ports != [] {
      var out := CopiesOut(t, s, ports, c);
      assert ports[0] in ports;
      if Rank(t, d, n, out[0]) >= 0 {
        PowGrows(b, Rank(t, d, n, out[0]), r);
      }
      CopiesOutWeighLess(t, d, b, n, s, ports[1..], c, r);
      assert out[1..] == CopiesOut(t, s, ports[1..], c);
      OneMore(|ports[1..]|, Pow(b, r));
    }
  }

  lemma InterfacesAreFew(t: Topology, b: nat, n: Net, s: SwitchId, f: Frame)
    requires LoopFree(t) && TablesCorrect(t, n) && FewerPorts(t, b) && s in t.ports && Knows(n, s, f.src)
    ensures |Interfaces(t, n, s, f)| < b
  {
    FloodPortsAreAllButOne(|t.ports[s]|, Lookup(n.tables[s], f.src));
  }

  lemma CopiesOutWeighLessThanCopy(t: Topology, d: nat, b: nat, n: Net, s: SwitchId, ports: seq<nat>, c: Copy)
    requires LoopFree(t) && WithinDistance(t, d) && FewerPorts(t, b) && TablesCorrect(t, n) && CopyCorrect(t, n, c)
    requires c.at == InSwitch(s) && ports == Interfaces(t, n, s, c.frame) && forall p :: p in ports ==> HasPort(t, s, p)
    ensures TotalWeight(t, d, b, n, CopiesOut(t, s, ports, c)) < Weight(t, d, b, n, c)
  {
    RankIsPositive(t, d, n, c);
    var r := Rank(t, d, n, c) - 1;
    forall p | p in ports
      ensures Rank(t, d, n, Copy(c.frame, FarEnd(t, s, p), c.hops + 1)) <= r
    {
      ForwardLowersRank(t, d, n, p, c);
    }
    CopiesOutWeighLess(t, d, b, n, s, ports, c, r);
    InterfacesAreFew(t, b, n, s, c.frame);
    MulPowGrows(|ports|, b, r);
  }

  lemma ForwardLowersPotential(t: Topology, d: nat, b: nat, n: Net, i: nat)
    requires LoopFree(t) && WithinDistance(t, d) && FewerPorts(t, b) && Correct(t, n) && Enabled(t, n, Forward(i))
    ensures Potential(t, d, b, Next(t, n, Forward(i))) < Potential(t, d, b, n)
  {
    var n', c := Next(t, n, Forward(i)), n.flight[i];
    assert c in n.flight;
    var s := c.at.s;
    var ports := Interfaces(t, n, s, c.frame);
    CopiesOutWeighLessThanCopy(t, d, b, n, s, ports, c);
    TotalWeightWithout(t, d, b, n, n.flight, i);
    TotalWeightOfParts(t, d, b, n, Without(n.flight, i), CopiesOut(t, s, ports, c));
    SameTablesSameWeight(t, d, b, n, n', n'.flight);
  }

  lemma {:induction false} SameTablesSameWeight(t: Topology, d: nat, b: nat, n: Net, n': Net, cs: seq<Copy>)
    requires n.tables == n'.tables
    ensures TotalWeight(t, d, b, n, cs) == TotalWeight(t, d, b, n', cs)
  {
    if cs != [] {
      SameTablesSameWeight(t, d, b, n, n', cs[1..]);
    }
  }

  lemma ReceiveLowersPotential(t: Topology, d: nat, b: nat, n: Net, i: nat)
    requires LoopFree(t) && WithinDistance(t, d) && FewerPorts(t, b) && Correct(t, n) && Enabled(t, n, Receive(i))
    ensures Potential(t, d, b, Next(t, n, Receive(i))) < Potential(t, d, b, n)
  {
    var n', c := Next(t, n, Receive(i)), n.flight[i];
    var c' := c.(at := InSwitch(c.at.s));
    ReceiveKeepsTables(t, n, i);
    assert c in n.flight;
    WithoutIsPart(n.flight, i);
    forall o | o in n.flight
      ensures 0 <= Rank(t, d, n', o) <= Rank(t, d, n, o)
    {
      GrowthKeepsCopyCorrect(t, n, n', o);
      RankIsPositive(t, d, n', o);
      GrowthLowersRank(t, d, n, n', o);
    }
    TotalWeightLowered(t, d, b, n, n', Without(n.flight, i));
    TotalWeightWithout(t, d, b, n, n.flight, i);
    TotalWeightWithout(t, d, b, n', n'.flight, i);
    assert Without(n'.flight, i) == Without(n.flight, i);
    RemainingIsPositive(t, d, n', c.at.s, c.frame);
    PowGrows(b, Rank(t, d, n', c'), Rank(t, d, n, c));
  }

  lemma StepLowersPotential(t: Topology, d: nat, b: nat, n: Net, m: Move)
    requires LoopFree(t) && WithinDistance(t, d) && FewerPorts(t, b) && Correct(t, n) && Enabled(t, n, m) && !m.Send?
    ensures Potential(t, d, b, Next(t, n, m)) < Potential(t, d, b, n)
  {
    match m
    case Receive(i) => ReceiveLowersPotential(t, d, b, n, i);
    case Forward(i) => ForwardLowersPotential(t, d, b, n, i);
    case Deliver(i) => RemovalLowersPotential(t, d, b, n, Next(t, n, m), i);
    case Drop(i) => RemovalLowersPotential(t, d, b, n, Next(t, n, m), i);
  }

  lemma RemovalLowersPotential(t: Topology, d: nat, b: nat, n: Net, n': Net, i: nat)
    requires LoopFree(t) && WithinDistance(t, d) && FewerPorts(t, b) && Correct(t, n) && i < |n.flight|
    requires n'.tables == n.tables && n'.flight == Without(n.flight, i)
    ensures Potential(t, d, b, n') < Potential(t, d, b, n)
  {
    assert n.flight[i] in n.flight;
    RankIsPositive(t, d, n, n.flight[i]);
    PowGrows(b, 0, Rank(t, d, n, n.flight[i]));
    TotalWeightWithout(t, d, b, n, n.flight, i);
    SameTablesSameWeight(t, d, b, n, n', n'.flight);
  }

  ghost predicate QuietStep(t: Topology, n: Net, n': Net) {
    exists m :: Enabled(t, n, m) && !m.Send? && n' == Next(t, n, m)
  }

  /** From any reachable state, if stations send nothing more, the network falls silent: no run is
      longer than the potential, whatever is learned and dropped on the way. */
  lemma {:induction false} NetworkFallsSilent(t: Topology, d: nat, b: nat, run: seq<Net>)
    requires LoopFree(t) && WithinDistance(t, d) && FewerPorts(t, b)
    requires |run| > 0 && Correct(t, run[0]) && forall i :: 0 <= i < |run| - 1 ==> QuietStep(t, run[i], run[i + 1])
    ensures |run| - 1 <= Potential(t, d, b, run[0])
    decreases |run|
  {
    if |run| > 1 {
      assert QuietStep(t, run[0], run[0 + 1]);
      var m :| Enabled(t, run[0], m) && !m.Send? && run[1] == Next(t, run[0], m);
      StepLowersPotential(t, d, b, run[0], m);
      StepKeepsCorrect(t, run[0], run[1]);
      var rest := run[1..];
      forall i | 0 <= i < |rest| - 1
        ensures QuietStep(t, rest[i], rest[i + 1])
      {
        assert QuietStep(t, run[i + 1], run[i + 1 + 1]);
      }
      NetworkFallsSilent(t, d, b, rest);
    }
  }

  /** Links crossed so far and links left never exceed twice the distance bound, and two. */
  ghost predicate HopsBounded(t: Topology, d: nat, n: Net, c: Copy) {
    match c.at
    case ToStation(_) => c.hops <= 2 * d + 2
    case OnWire(s, _) => c.hops + Remaining(t, d, n, s, c.frame) <= 2 * d + 2
    case InSwitch(s) => c.hops + Remaining(t, d, n, s, c.frame) <= 2 * d + 2
  }

  ghost predicate AllHopsBounded(t: Topology, d: nat, n: Net) {
    && (forall c :: c in n.flight ==> HopsBounded(t, d, n, c))
    && forall c :: c in n.received || c in n.dropped ==> c.hops <= 2 * d + 2
  }

  lemma GrowthKeepsHopsBounded(t: Topology, d: nat, n: Net, n': Net, c: Copy)
    requires LoopFree(t) && WithinDistance(t, d) && TablesCorrect(t, n') && Grows(n, n') && CopyCorrect(t, n, c)
    requires HopsBounded(t, d, n, c)
    ensures HopsBounded(t, d, n', c)
  {
    GrowthLowersRank(t, d, n, n', c);
  }

  lemma ForwardKeepsHopsBounded(t: Topology, d: nat, n: Net, s: SwitchId, ports: seq<nat>, c: Copy)
    requires LoopFree(t) && TablesCorrect(t, n) && WithinDistance(t, d) && CopyCorrect(t, n, c) && c.at == InSwitch(s)
    requires HopsBounded(t, d, n, c) && ports == Interfaces(t, n, s, c.frame)
    requires forall p :: p in ports ==> HasPort(t, s, p)
    ensures forall o :: o in CopiesOut(t, s, ports, c) ==> HopsBounded(t, d, n, o)
  {
    var out := CopiesOut(t, s, ports, c);
    RemainingIsPositive(t, d, n, s, c.frame);
    forall o | o in out
      ensures HopsBounded(t, d, n, o)
    {
      var k :| 0 <= k < |out| && out[k] == o;
      ForwardLowersRank(t, d, n, ports[k], c);
    }
  }

  lemma FlightStaysBounded(t: Topology, d: nat, n: Net, n': Net)
    requires LoopFree(t) && WithinDistance(t, d) && Correct(t, n) && Correct(t, n') && Grows(n, n')
    requires AllHopsBounded(t, d, n)
    ensures forall c :: c in n.flight ==> HopsBounded(t, d, n', c) && c.hops <= 2 * d + 2
  {
    forall c | c in n.flight
      ensures HopsBounded(t, d, n', c) && c.hops <= 2 * d + 2
    {
      GrowthKeepsHopsBounded(t, d, n, n', c);
      if !c.at.ToStation? {
        RemainingIsPositive(t, d, n, c.at.s, c.frame);
      }
    }
  }

  lemma SentIsBounded(t: Topology, d: nat, n: Net, m: Move, n': Net)
    requires LoopFree(t) && WithinDistance(t, d) && Enabled(t, n, m) && m.Send? && n' == Next(t, n, m) && Correct(t, n')
    ensures HopsBounded(t, d, n', n'.flight[|n.flight|])
  {
    var c := n'.flight[|n.flight|];
    assert c in n'.flight;
    RemainingIsPositive(t, d, n', c.at.s, c.frame);
  }

  lemma StepKeepsHopsBounded(t: Topology, d: nat, n: Net, m: Move)
    requires LoopFree(t) && WithinDistance(t, d) && Correct(t, n) && AllHopsBounded(t, d, n) && Enabled(t, n, m)
    ensures AllHopsBounded(t, d, Next(t, n, m))
  {
    var n' := Next(t, n, m);
    assert Step(t, n, n');
    StepKeepsCorrect(t, n, n');
    FlightStaysBounded(t, d, n, n');
    match m
    case Send(_, _, _) => SentIsBounded(t, d, n, m, n');
    case Receive(i) => assert n.flight[i] in n.flight;
    case Forward(i) =>
      WithoutIsPart(n.flight, i);
      var c := n.flight[i];
      ForwardKeepsHopsBounded(t, d, n', c.at.s, Interfaces(t, n, c.at.s, c.frame), c);
    case Deliver(i) => WithoutIsPart(n.flight, i);
    case Drop(i) => WithoutIsPart(n.flight, i);
  }

  /** No copy ever crosses more than `2 * d + 2` links, bounces included. */
  lemma {:induction false} NoCopyCrossesManyLinks(t: Topology, d: nat, run: seq<Net>, k: nat)
    requires LoopFree(t) && WithinDistance(t, d) && IsRun(t, run) && k < |run|
    ensures AllHopsBounded(t, d, run[k])
    ensures forall c :: c in run[k].flight || c in run[k].received || c in run[k].dropped ==> c.hops <= 2 * d + 2
  {
    NetworkStaysCorrect(t, run, k);
    if k > 0 {
      NoCopyCrossesManyLinks(t, d, run, k - 1);
      NetworkStaysCorrect(t, run, k - 1);
      assert Step(t, run[k - 1], run[k - 1 + 1]);
      var m :| Enabled(t, run[k - 1], m) && run[k] == Next(t, run[k - 1], m);
      StepKeepsHopsBounded(t, d, run[k - 1], m);
    }
    forall c | c in run[k].flight && !c.at.ToStation?
      ensures c.hops <= 2 * d + 2
    {
      RemainingIsPositive(t, d, run[k], c.at.s, c.frame);
    }
  }
}
