/** On a straight way, frames from one station to another arrive in the order they were sent, when every
    wire and every switch queue keeps the order of the copies of such frames. A first-in first-out queue
    does: on a straight way they all come to a switch over one wire. */
module NetworkOrder {
  import opened Addressing
  import opened Bytes
  import opened Frames
  import opened SwitchTable
  import opened Wiring
  import opened Network
  import opened NetworkDelivery
  import opened NetworkContinuations
  import opened NetworkOnce

  /** A copy of a frame from `a` to `b`, numbered from `base` on, that is not at some other station. */
  predicate InFlow(c: Copy, base: nat, a: Mac, b: Mac) {
    c.frame.src == a && c.frame.dst == b && c.frame.id >= base && (c.at.ToStation? ==> c.at.h == b)
  }

  /** No older copy of the flow is at the same place. */
  ghost predicate IsOldest(n: Net, i: nat, base: nat, a: Mac, b: Mac)
    requires i < |n.flight|
  {
    forall j :: 0 <= j < i && InFlow(n.flight[j], base, a, b) ==> n.flight[j].at != n.flight[i].at
  }

  /** A step in which wires and queues keep the order of the flow. */
  ghost predicate OrderedStep(t: Topology, n: Net, n': Net, base: nat, a: Mac, b: Mac) {
    exists m :: Enabled(t, n, m) && n' == Next(t, n, m) && IsOrderly(n, m, base, a, b)
  }

  ghost predicate IsOrderly(n: Net, m: Move, base: nat, a: Mac, b: Mac) {
    (m.Receive? || m.Forward? || m.Deliver?) && m.i < |n.flight| && InFlow(n.flight[m.i], base, a, b) ==>
      IsOldest(n, m.i, base, a, b)
  }

  /** Such copies keep to the way, and come to each switch over the wire from the source. */
  ghost predicate KeepsToWay(t: Topology, c: Copy, a: Mac, b: Mac) {
    match c.at
    case ToStation(_) => true
    case InSwitch(s) => Between(t, s, a, b)
    case OnWire(s, p) => Between(t, s, a, b) && p == t.toward(s, a)
  }

  /** How far the copy is from the destination: the switch counts, with the wire to it. */
  function Stage(t: Topology, c: Copy, b: Mac): nat {
    match c.at
    case ToStation(_) => 0
    case InSwitch(s) => t.dist(s, b) + 1
    case OnWire(s, _) => t.dist(s, b) + 1
  }

  /** `x` is nearer the destination than `y`, or before it at the same switch. */
  predicate Ahead(t: Topology, x: Copy, y: Copy, b: Mac, older: bool) {
    Stage(t, x, b) < Stage(t, y, b)
    || (Stage(t, x, b) == Stage(t, y, b) && older && !(x.at.OnWire? && y.at.InSwitch?))
  }

  /** One copy of each frame, the older frames ahead. */
  ghost predicate Lined(t: Topology, cs: seq<Copy>, base: nat, a: Mac, b: Mac) {
    forall i, j ::
      (0 <= i < |cs| && 0 <= j < |cs| && i != j && InFlow(cs[i], base, a, b) && InFlow(cs[j], base, a, b)) ==>
        InLine(t, cs[i], cs[j], b, i < j)
  }

  predicate InLine(t: Topology, x: Copy, y: Copy, b: Mac, older: bool) {
    x.frame.id != y.frame.id && (x.frame.id < y.frame.id ==> Ahead(t, x, y, b, older))
  }

  ghost predicate AllKeepToWay(t: Topology, cs: seq<Copy>, base: nat, a: Mac, b: Mac) {
    forall c :: c in cs && InFlow(c, base, a, b) ==> KeepsToWay(t, c, a, b)
  }

  ghost predicate Rising(received: seq<Copy>, base: nat, a: Mac, b: Mac) {
    forall i, j :: 0 <= i < j < |received| && InFlow(received[i], base, a, b) && InFlow(received[j], base, a, b) ==>
      received[i].frame.id < received[j].frame.id
  }

  /** What has arrived was sent before what is still on its way. */
  ghost predicate ArrivedFirst(received: seq<Copy>, flight: seq<Copy>, base: nat, a: Mac, b: Mac) {
    forall c, d :: c in received && d in flight && InFlow(c, base, a, b) && InFlow(d, base, a, b) ==>
      c.frame.id < d.frame.id
  }

  ghost predicate InOrder(t: Topology, n: Net, base: nat, a: Mac, b: Mac) {
    && Lined(t, n.flight, base, a, b) && AllKeepToWay(t, n.flight, base, a, b)
    && Rising(n.received, base, a, b) && ArrivedFirst(n.received, n.flight, base, a, b)
  }

  // The way is a line

  lemma {:induction false} OneSwitchAtEachDistance(t: Topology, s: SwitchId, r: SwitchId, a: Mac, b: Mac)
    requires LoopFree(t) && Between(t, s, a, b) && Between(t, r, a, b) && t.dist(s, b) == t.dist(r, b)
    ensures s == r
    decreases t.dist(s, b)
  {
    if s != t.attach[b].0 && r != t.attach[b].0 {
      var s', p := WayBack(t, s, b);
      var r', q := WayBack(t, r, b);
      assert t.toward(s', a) == p && t.toward(r', a) == q;
      OneSwitchAtEachDistance(t, s', r', a, b);
    } else if s != t.attach[b].0 {
      var s', p := WayBack(t, s, b);
    } else if r != t.attach[b].0 {
      var r', q := WayBack(t, r, b);
    }
  }

  /** The first switch is the farthest. */
  lemma {:induction false} FirstIsFarthest(t: Topology, s: SwitchId, a: Mac, b: Mac)
    requires LoopFree(t) && Between(t, s, a, b)
    ensures t.dist(s, b) <= t.dist(t.attach[a].0, b)
    decreases t.dist(s, a)
  {
    if s != t.attach[a].0 {
      var s', p := WayBack(t, s, a);
      assert t.toward(s', b) == p && CrossingLaw(t, s', b, p);
      FirstIsFarthest(t, s', a, b);
    }
  }

  // What the moves do to the line

  lemma LinedWithout(t: Topology, cs: seq<Copy>, i: nat, base: nat, a: Mac, b: Mac)
    requires i < |cs| && Lined(t, cs, base, a, b)
    ensures Lined(t, Without(cs, i), base, a, b)
  {
    var rest := Without(cs, i);
    forall j, k | 0 <= j < |rest| && 0 <= k < |rest| && j != k
      && InFlow(rest[j], base, a, b) && InFlow(rest[k], base, a, b)
      ensures InLine(t, rest[j], rest[k], b, j < k)
    {
      var j', k' := if j < i then j else j + 1, if k < i then k else k + 1;
      assert rest[j] == cs[j'] && rest[k] == cs[k'] && (j < k <==> j' < k');
    }
  }

  /** An appended copy stands behind all older frames and before all newer ones. */
  ghost predicate FitsAfter(t: Topology, cs: seq<Copy>, o: Copy, base: nat, a: Mac, b: Mac) {
    forall c :: c in cs && InFlow(c, base, a, b) ==> InLine(t, c, o, b, true) && InLine(t, o, c, b, false)
  }

  ghost predicate AtMostOne(outs: seq<Copy>, base: nat, a: Mac, b: Mac) {
    forall k, l :: 0 <= k < l < |outs| && InFlow(outs[k], base, a, b) ==> !InFlow(outs[l], base, a, b)
  }

  lemma LinedWith(t: Topology, cs: seq<Copy>, outs: seq<Copy>, base: nat, a: Mac, b: Mac)
    requires Lined(t, cs, base, a, b) && AtMostOne(outs, base, a, b)
    requires forall o :: o in outs && InFlow(o, base, a, b) ==> FitsAfter(t, cs, o, base, a, b)
    ensures Lined(t, cs + outs, base, a, b)
  {
    var all := cs + outs;
    forall j, k | 0 <= j < |all| && 0 <= k < |all| && j != k
      && InFlow(all[j], base, a, b) && InFlow(all[k], base, a, b)
      ensures InLine(t, all[j], all[k], b, j < k)
    {
      assert j < |cs| || k < |cs|;
      if j < |cs| && k >= |cs| {
        assert all[k] in outs && FitsAfter(t, cs, all[k], base, a, b);
      } else if j >= |cs| {
        assert all[j] in outs && FitsAfter(t, cs, all[j], base, a, b);
      }
    }
  }

  ghost predicate OnFlow(t: Topology, n: Net, base: nat, a: Mac, b: Mac) {
    && a in t.attach && b in t.attach && a != b && base <= |n.sent| && Straight(t, n, a, b)
  }

  lemma SendKeepsOrder(t: Topology, n: Net, h: Mac, dst: Mac, payload: seq<byte>, n': Net, base: nat, a: Mac, b: Mac)
    requires LoopFree(t) && Correct(t, n) && OnFlow(t, n, base, a, b) && InOrder(t, n, base, a, b)
    requires Enabled(t, n, Send(h, dst, payload)) && n' == Next(t, n, Send(h, dst, payload))
    ensures InOrder(t, n', base, a, b)
  {
    var o := n'.flight[|n.flight|];
    assert n'.flight == n.flight + [o];
    if InFlow(o, base, a, b) {
      StationAcross(t, o.at.s, o.at.port);
      assert b !in {a} && KeepsToWay(t, o, a, b);
      forall c | c in n.flight && InFlow(c, base, a, b)
        ensures InLine(t, c, o, b, true) && InLine(t, o, c, b, false)
      {
        assert CopyCorrect(t, n, c);
        if !c.at.ToStation? {
          FirstIsFarthest(t, c.at.s, a, b);
        }
      }
    }
    LinedWith(t, n.flight, [o], base, a, b);
    forall c | c in n.received
      ensures c.frame.id < o.frame.id
    {
      assert CopyCorrect(t, n, c);
    }
  }

  /** A copy taken in stays behind the older ones at its switch, which came over the same wire. */
  lemma ReceiveKeepsLine(t: Topology, n: Net, i: nat, n': Net, base: nat, a: Mac, b: Mac)
    requires LoopFree(t) && InOrder(t, n, base, a, b) && IsOrderly(n, Receive(i), base, a, b)
    requires Enabled(t, n, Receive(i)) && n' == Next(t, n, Receive(i))
    ensures Lined(t, n'.flight, base, a, b)
  {
    var cs, all := n.flight, n'.flight;
    assert cs[i] in cs;
    forall j, k | 0 <= j < |all| && 0 <= k < |all| && j != k
      && InFlow(all[j], base, a, b) && InFlow(all[k], base, a, b)
      ensures InLine(t, all[j], all[k], b, j < k)
    {
      assert InFlow(cs[j], base, a, b) && InFlow(cs[k], base, a, b) && InLine(t, cs[j], cs[k], b, j < k);
      if k == i && j < k && cs[j].at.OnWire? && Stage(t, cs[j], b) == Stage(t, cs[k], b) {
        assert cs[j] in cs;
        OneSwitchAtEachDistance(t, cs[j].at.s, cs[k].at.s, a, b);
      }
    }
  }

  lemma ReceiveKeepsOrder(t: Topology, n: Net, i: nat, n': Net, base: nat, a: Mac, b: Mac)
    requires LoopFree(t) && InOrder(t, n, base, a, b) && IsOrderly(n, Receive(i), base, a, b)
    requires Enabled(t, n, Receive(i)) && n' == Next(t, n, Receive(i))
    ensures InOrder(t, n', base, a, b)
  {
    ReceiveKeepsLine(t, n, i, n', base, a, b);
    assert n.flight[i] in n.flight;
    forall c | c in n'.flight && InFlow(c, base, a, b)
      ensures exists d :: d in n.flight && InFlow(d, base, a, b) && d.frame == c.frame
                          && (d == c || (d.at.OnWire? && c.at == InSwitch(d.at.s)))
    {
      var k :| 0 <= k < |n'.flight| && n'.flight[k] == c;
      assert n.flight[k] in n.flight && InFlow(n.flight[k], base, a, b);
    }
  }

  /** Where a forwarded copy goes: to the next switch of the way, or to the destination, or off the flow. */
  lemma OutInFlow(t: Topology, n: Net, c: Copy, q: nat, base: nat, a: Mac, b: Mac)
    requires LoopFree(t) && TablesCorrect(t, n) && CopyCorrect(t, n, c) && c.at.InSwitch? && InFlow(c, base, a, b)
    requires a != b && b in t.attach && Straight(t, n, a, b) && KeepsToWay(t, c, a, b)
    requires q in Interfaces(t, n, c.at.s, c.frame) && HasPort(t, c.at.s, q)
    ensures var o := Copy(c.frame, FarEnd(t, c.at.s, q), c.hops + 1);
            InFlow(o, base, a, b) ==> q == t.toward(c.at.s, b) && KeepsToWay(t, o, a, b) && !o.at.InSwitch?
                                      && Stage(t, o, b) + 1 == Stage(t, c, b)
  {
    var s := c.at.s;
    OutStaysOnWay(t, n, s, c, q);
    if t.ports[s][q].Trunk? {
      if !Knows(n, s, b) {
        assert !Detour(t, n, a, b, s, q);
      } else {
        assert EntryCorrect(t, n, s, b);
      }
      var s', p' := WayBack(t, s, b);
      assert t.toward(s', a) == p';
    } else {
      StationAcross(t, s, q);
    }
  }

  lemma OutsInFlow(t: Topology, n: Net, c: Copy, ports: seq<nat>, base: nat, a: Mac, b: Mac)
    requires LoopFree(t) && TablesCorrect(t, n) && CopyCorrect(t, n, c) && c.at.InSwitch? && InFlow(c, base, a, b)
    requires a != b && b in t.attach && Straight(t, n, a, b) && KeepsToWay(t, c, a, b)
    requires ports == Interfaces(t, n, c.at.s, c.frame) && forall p :: p in ports ==> HasPort(t, c.at.s, p)
    ensures var outs := CopiesOut(t, c.at.s, ports, c);
            && AtMostOne(outs, base, a, b)
            && forall o :: o in outs && InFlow(o, base, a, b) ==>
                 KeepsToWay(t, o, a, b) && !o.at.InSwitch? && Stage(t, o, b) + 1 == Stage(t, c, b)
  {
    var outs := CopiesOut(t, c.at.s, ports, c);
    forall k | 0 <= k < |outs| && InFlow(outs[k], base, a, b)
      ensures ports[k] == t.toward(c.at.s, b) && KeepsToWay(t, outs[k], a, b) && !outs[k].at.InSwitch?
      ensures Stage(t, outs[k], b) + 1 == Stage(t, c, b)
    {
      OutInFlow(t, n, c, ports[k], base, a, b);
    }
    PortsDiffer(t, n, c.at.s, c.frame);
  }

  lemma PortsDiffer(t: Topology, n: Net, s: SwitchId, f: Frame)
    requires s in n.tables && s in t.ports
    ensures var ports := Interfaces(t, n, s, f); forall k, l :: 0 <= k < l < |ports| ==> ports[k] != ports[l]
  {
    FloodPortsAreAllButOne(|t.ports[s]|, Lookup(n.tables[s], f.src));
  }

  /** The oldest copy at a switch, sent on, stands behind all older frames. */
  lemma ForwardedFits(t: Topology, n: Net, i: nat, o: Copy, base: nat, a: Mac, b: Mac)
    requires LoopFree(t) && Lined(t, n.flight, base, a, b) && AllKeepToWay(t, n.flight, base, a, b) && i < |n.flight|
    requires n.flight[i].at.InSwitch? && InFlow(n.flight[i], base, a, b) && IsOldest(n, i, base, a, b)
    requires o.frame == n.flight[i].frame && !o.at.InSwitch? && Stage(t, o, b) + 1 == Stage(t, n.flight[i], b)
    ensures FitsAfter(t, Without(n.flight, i), o, base, a, b)
  {
    var cs, c := n.flight, n.flight[i];
    var rest := Without(cs, i);
    assert c in cs;
    forall d | d in rest && InFlow(d, base, a, b)
      ensures InLine(t, d, o, b, true) && InLine(t, o, d, b, false)
    {
      var k :| 0 <= k < |rest| && rest[k] == d;
      var j := if k < i then k else k + 1;
      assert cs[j] == d && d in cs && InLine(t, cs[j], cs[i], b, j < i) && InLine(t, cs[i], cs[j], b, i < j);
      if d.frame.id < c.frame.id && Stage(t, d, b) == Stage(t, c, b) {
        OneSwitchAtEachDistance(t, d.at.s, c.at.s, a, b);
      }
    }
  }

  lemma ForwardKeepsOrder(t: Topology, n: Net, i: nat, n': Net, base: nat, a: Mac, b: Mac)
    requires LoopFree(t) && Correct(t, n) && OnFlow(t, n, base, a, b) && InOrder(t, n, base, a, b)
    requires Enabled(t, n, Forward(i)) && n' == Next(t, n, Forward(i)) && IsOrderly(n, Forward(i), base, a, b)
    ensures InOrder(t, n', base, a, b)
  {
    var c := n.flight[i];
    var ports := Interfaces(t, n, c.at.s, c.frame);
    var outs, rest := CopiesOut(t, c.at.s, ports, c), Without(n.flight, i);
    assert c in n.flight;
    WithoutIsPart(n.flight, i);
    LinedWithout(t, n.flight, i, base, a, b);
    if InFlow(c, base, a, b) {
      OutsInFlow(t, n, c, ports, base, a, b);
      forall o | o in outs && InFlow(o, base, a, b)
        ensures FitsAfter(t, rest, o, base, a, b)
      {
        ForwardedFits(t, n, i, o, base, a, b);
      }
    }
    LinedWith(t, rest, outs, base, a, b);
  }

  lemma DeliveryKeepsOrder(t: Topology, n: Net, i: nat, n': Net, base: nat, a: Mac, b: Mac)
    requires InOrder(t, n, base, a, b) && IsOrderly(n, Deliver(i), base, a, b)
    requires Enabled(t, n, Deliver(i)) && n' == Next(t, n, Deliver(i))
    ensures InOrder(t, n', base, a, b)
  {
    var cs, c := n.flight, n.flight[i];
    assert c in cs;
    WithoutIsPart(cs, i);
    LinedWithout(t, cs, i, base, a, b);
    var rest := Without(cs, i);
    forall d | d in rest && InFlow(c, base, a, b) && InFlow(d, base, a, b)
      ensures c.frame.id < d.frame.id
    {
      var k :| 0 <= k < |rest| && rest[k] == d;
      var j := if k < i then k else k + 1;
      assert cs[j] == d && InLine(t, cs[j], cs[i], b, j < i);
    }
  }

  lemma DropKeepsOrder(t: Topology, n: Net, i: nat, n': Net, base: nat, a: Mac, b: Mac)
    requires InOrder(t, n, base, a, b) && Enabled(t, n, Drop(i)) && n' == Next(t, n, Drop(i))
    ensures InOrder(t, n', base, a, b)
  {
    WithoutIsPart(n.flight, i);
    LinedWithout(t, n.flight, i, base, a, b);
  }

  lemma StepKeepsOrder(t: Topology, n: Net, n': Net, base: nat, a: Mac, b: Mac)
    requires LoopFree(t) && Correct(t, n) && OnFlow(t, n, base, a, b) && InOrder(t, n, base, a, b)
    requires OrderedStep(t, n, n', base, a, b) && Grows(n, n')
    ensures OnFlow(t, n', base, a, b) && InOrder(t, n', base, a, b)
  {
    GrowthKeepsStraight(t, n, n', a, b);
    var m :| Enabled(t, n, m) && n' == Next(t, n, m) && IsOrderly(n, m, base, a, b);
    match m
    case Send(h, dst, payload) => SendKeepsOrder(t, n, h, dst, payload, n', base, a, b);
    case Receive(i) => ReceiveKeepsOrder(t, n, i, n', base, a, b);
    case Forward(i) => ForwardKeepsOrder(t, n, i, n', base, a, b);
    case Deliver(i) => DeliveryKeepsOrder(t, n, i, n', base, a, b);
    case Drop(i) => DropKeepsOrder(t, n, i, n', base, a, b);
  }

  lemma NothingOfTheFlow(t: Topology, n: Net, cs: seq<Copy>, a: Mac, b: Mac)
    requires CopiesCorrect(t, n, cs)
    ensures forall c :: c in cs ==> !InFlow(c, |n.sent|, a, b)
  {
    forall c | c in cs
      ensures !InFlow(c, |n.sent|, a, b)
    {
      assert CopyCorrect(t, n, c);
    }
  }

  lemma StartsInOrder(t: Topology, n: Net, a: Mac, b: Mac)
    requires Correct(t, n)
    ensures InOrder(t, n, |n.sent|, a, b)
  {
    NothingOfTheFlow(t, n, n.flight, a, b);
    NothingOfTheFlow(t, n, n.received, a, b);
  }

  /** From `j` on, wires and queues keep the order of frames from `a` to `b` that are sent from then on. */
  ghost predicate OrderedFrom(t: Topology, run: seq<Net>, j: nat, a: Mac, b: Mac)
    requires j < |run|
  {
    forall i :: j <= i < |run| - 1 ==> OrderedStep(t, run[i], run[i + 1], |run[j].sent|, a, b)
  }

  lemma {:induction false} StaysInOrder(t: Topology, run: seq<Net>, base: nat, j: nat, k: nat, a: Mac, b: Mac)
    requires LoopFree(t) && IsRun(t, run) && j <= k < |run|
    requires forall i :: j <= i < |run| - 1 ==> OrderedStep(t, run[i], run[i + 1], base, a, b)
    requires OnFlow(t, run[j], base, a, b) && InOrder(t, run[j], base, a, b)
    ensures InOrder(t, run[k], base, a, b)
    decreases k - j
  {
    if j < k {
      NetworkStaysCorrect(t, run, j);
      NextGrows(t, run, j, run[j], run[j + 1]);
      StepKeepsOrder(t, run[j], run[j + 1], base, a, b);
      StaysInOrder(t, run, base, j + 1, k, a, b);
    }
  }

  /** Frames sent on a straight way arrive in the order sent, each at most once. */
  lemma FramesArriveInOrder(t: Topology, run: seq<Net>, j: nat, k: nat, a: Mac, b: Mac)
    requires LoopFree(t) && IsRun(t, run) && j <= k < |run| && OrderedFrom(t, run, j, a, b)
    requires a in t.attach && b in t.attach && a != b && Straight(t, run[j], a, b)
    ensures Rising(run[k].received, |run[j].sent|, a, b)
  {
    NetworkStaysCorrect(t, run, j);
    StartsInOrder(t, run[j], a, b);
    StaysInOrder(t, run, |run[j].sent|, j, k, a, b);
  }
}

/** What arrives in order is what was sent, with frames left out; so is a file sent in UDP segments. */
module NetworkArrivals {
  import opened Addressing
  import opened Bytes
  import opened Frames
  import opened Wiring
  import opened Network
  import opened NetworkOnce
  import opened NetworkOrder
  import opened Transport
  import opened Codecs
  import opened UdpTransfer
  import Queues = WorkQueueChain

  /** What `b` receives of the flow. */
  function Arrived(received: seq<Copy>, base: nat, a: Mac, b: Mac): seq<seq<byte>> {
    if received == [] then []
    else
      var c := received[|received| - 1];
      Arrived(received[..|received| - 1], base, a, b) + if InFlow(c, base, a, b) then [c.frame.payload] else []
  }

  /** What `a` sent to `b` among the frames numbered from `base` to `end`. */
  function SentBetween(sent: seq<Frame>, base: nat, end: nat, a: Mac, b: Mac): seq<seq<byte>>
    requires base <= end <= |sent|
  {
    if base == end then []
    else
      var f := sent[end - 1];
      SentBetween(sent, base, end - 1, a, b) + if f.src == a && f.dst == b then [f.payload] else []
  }

  lemma {:induction false} SentGrows(sent: seq<Frame>, base: nat, k: nat, end: nat, a: Mac, b: Mac, x: seq<seq<byte>>)
    requires base <= k <= end <= |sent| && Queues.IsSubsequence(x, SentBetween(sent, base, k, a, b))
    ensures Queues.IsSubsequence(x, SentBetween(sent, base, end, a, b))
  {
    if k < end {
      SentGrows(sent, base, k, end - 1, a, b, x);
      var f := sent[end - 1];
      if f.src == a && f.dst == b {
        Queues.SubsequenceOfLonger(x, SentBetween(sent, base, end - 1, a, b), f.payload);
      } else {
        assert SentBetween(sent, base, end, a, b) == SentBetween(sent, base, end - 1, a, b);
      }
    }
  }

  lemma RisingFront(received: seq<Copy>, base: nat, a: Mac, b: Mac)
    requires received != [] && Rising(received, base, a, b) && InFlow(received[|received| - 1], base, a, b)
    ensures forall d :: d in received[..|received| - 1] && InFlow(d, base, a, b) ==>
              d.frame.id < received[|received| - 1].frame.id
  {
  }

  lemma LastOfSent(sent: seq<Frame>, base: nat, f: Frame, end: nat, a: Mac, b: Mac, x: seq<seq<byte>>)
    requires base <= f.id < end <= |sent| && sent[f.id] == f && f.src == a && f.dst == b
    requires Queues.IsSubsequence(x, SentBetween(sent, base, f.id, a, b))
    ensures Queues.IsSubsequence(x + [f.payload], SentBetween(sent, base, end, a, b))
  {
    Queues.SubsequenceOfLonger(x, SentBetween(sent, base, f.id, a, b), f.payload);
    SentGrows(sent, base, f.id + 1, end, a, b, x + [f.payload]);
  }

  /** If numbers rise and stay below `end`, what arrived is a subsequence of what was sent below it. */
  lemma {:induction false} RisingIsSubsequence(sent: seq<Frame>, received: seq<Copy>, base: nat, end: nat,
                                               a: Mac, b: Mac)
    requires Rising(received, base, a, b) && base <= end <= |sent|
    requires forall c :: c in received && InFlow(c, base, a, b) ==> c.frame.id < end && sent[c.frame.id] == c.frame
    ensures Queues.IsSubsequence(Arrived(received, base, a, b), SentBetween(sent, base, end, a, b))
    decreases |received|
  {
    if received != [] {
      var rest, c := received[..|received| - 1], received[|received| - 1];
      assert c in received && forall d :: d in rest ==> d in received;
      if InFlow(c, base, a, b) {
        RisingFront(received, base, a, b);
        RisingIsSubsequence(sent, rest, base, c.frame.id, a, b);
        LastOfSent(sent, base, c.frame, end, a, b, Arrived(rest, base, a, b));
      } else {
        RisingIsSubsequence(sent, rest, base, end, a, b);
        assert Arrived(received, base, a, b) == Arrived(rest, base, a, b);
      }
    }
  }

  /** What a station has received of a flow on a straight way is what was sent on it, in order, with frames
      left out. */
  lemma FlowArrivesAsSubsequence(t: Topology, run: seq<Net>, j: nat, k: nat, a: Mac, b: Mac)
    requires LoopFree(t) && IsRun(t, run) && j <= k < |run| && OrderedFrom(t, run, j, a, b)
    requires a in t.attach && b in t.attach && a != b && Straight(t, run[j], a, b)
    ensures |run[j].sent| <= |run[k].sent|
    ensures var n, base := run[k], |run[j].sent|;
            Queues.IsSubsequence(Arrived(n.received, base, a, b), SentBetween(n.sent, base, |n.sent|, a, b))
  {
    var n, base := run[k], |run[j].sent|;
    FramesArriveInOrder(t, run, j, k, a, b);
    BindingsNeverChange(t, run, j, k);
    NetworkStaysCorrect(t, run, k);
    forall c | c in n.received
      ensures c.frame.id < |n.sent| && n.sent[c.frame.id] == c.frame
    {
      assert CopyCorrect(t, n, c);
    }
    RisingIsSubsequence(n.sent, n.received, base, |n.sent|, a, b);
  }

  // A file sent that way in UDP segments

  /** The payload that the server reads out of a frame. */
  function PayloadIn(frame: seq<byte>): seq<byte> {
    match UdpIn(frame)
    case Some(u) => u.payload
    case None => []
  }

  function PayloadsIn(frames: seq<seq<byte>>): seq<seq<byte>> {
    if frames == [] then [] else PayloadsIn(frames[..|frames| - 1]) + [PayloadIn(frames[|frames| - 1])]
  }

  /** The frames the client makes of its segments. */
  function Framed(p: Packet, segs: seq<Udp>): seq<seq<byte>> {
    if segs == [] then []
    else
      var last := segs[|segs| - 1];
      Framed(p, segs[..|segs| - 1]) + [PacketBytes(Encapsulated(p, IP_PROTOCOL_UDP, UdpBytes(last)))]
  }

  lemma {:induction false} PayloadsKeepSubsequence(x: seq<seq<byte>>, y: seq<seq<byte>>)
    requires Queues.IsSubsequence(x, y)
    ensures Queues.IsSubsequence(PayloadsIn(x), PayloadsIn(y))
    decreases |y|
  {
    if x != [] {
      var front, last := y[..|y| - 1], PayloadIn(y[|y| - 1]);
      if Queues.IsSubsequence(x, front) {
        PayloadsKeepSubsequence(x, front);
        Queues.SubsequenceOfLonger(PayloadsIn(x), PayloadsIn(front), last);
      } else {
        PayloadsKeepSubsequence(x[..|x| - 1], front);
        Queues.SubsequenceOfLonger(PayloadsIn(x[..|x| - 1]), PayloadsIn(front), last);
      }
    }
  }

  lemma FrameHoldsPayload(p: Packet, u: Udp)
    requires p.headerLength == IP_HEADER_SIZE && IP_HEADER_SIZE + UDP_HEADER_SIZE + |u.payload| < TWO_TO_THE_16
    ensures PayloadIn(PacketBytes(Encapsulated(p, IP_PROTOCOL_UDP, UdpBytes(u)))) == u.payload
  {
    UdpSurvivesIff(p, u);
  }

  lemma {:induction false} PayloadsOfFramed(p: Packet, segs: seq<Udp>)
    requires p.headerLength == IP_HEADER_SIZE
    requires forall s :: s in segs ==> IP_HEADER_SIZE + UDP_HEADER_SIZE + |s.payload| < TWO_TO_THE_16
    ensures PayloadsIn(Framed(p, segs)) == Payloads(segs)
  {
    if segs != [] {
      var front, last := segs[..|segs| - 1], segs[|segs| - 1];
      assert last in segs && forall s :: s in front ==> s in segs;
      PayloadsOfFramed(p, front);
      FrameHoldsPayload(p, last);
      PayloadsNext(front, last);
      assert segs == front + [last];
    }
  }

  lemma SegmentsFit(segs: seq<Udp>, file: seq<byte>, maximum: nat)
    requires maximum > 0 && file != [] && Payloads(segs) == Blocks(file, maximum)
    ensures forall s :: s in segs ==> |s.payload| <= maximum + 1
  {
    forall s | s in segs
      ensures |s.payload| <= maximum + 1
    {
      var i :| 0 <= i < |segs| && segs[i] == s;
      BlocksAreFull(file, maximum, i);
      assert Payloads(segs)[i] == s.payload;
    }
  }

  /** A UDP transfer on a straight way, from the file through segments, frames, switches and back: whatever
      is lost, the server writes the file with bytes left out. */
  lemma UdpOverStraightWay(t: Topology, run: seq<Net>, j: nat, k: nat, a: Mac, b: Mac,
                           p: Packet, segs: seq<Udp>, file: seq<byte>, maximum: nat)
    requires LoopFree(t) && IsRun(t, run) && j <= k < |run| && OrderedFrom(t, run, j, a, b)
    requires a in t.attach && b in t.attach && a != b && Straight(t, run[j], a, b)
    requires maximum > 0 && file != [] && Payloads(segs) == Blocks(file, maximum)
    requires p.headerLength == IP_HEADER_SIZE && IP_HEADER_SIZE + UDP_HEADER_SIZE + maximum + 1 < TWO_TO_THE_16
    requires |run[j].sent| <= |run[k].sent|
    requires SentBetween(run[k].sent, |run[j].sent|, |run[k].sent|, a, b) == Framed(p, segs)
    ensures var arrived := Arrived(run[k].received, |run[j].sent|, a, b);
            Queues.IsSubsequence(Received(PayloadsIn(arrived)).written, file)
  {
    var arrived := Arrived(run[k].received, |run[j].sent|, a, b);
    FlowArrivesAsSubsequence(t, run, j, k, a, b);
    PayloadsKeepSubsequence(arrived, Framed(p, segs));
    SegmentsFit(segs, file, maximum);
    PayloadsOfFramed(p, segs);
    UdpWritesSubsequence(file, maximum, PayloadsIn(arrived));
  }
}
