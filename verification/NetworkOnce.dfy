/** Exactly when a frame for one station arrives once: when every switch on the way that does not know the
    station yet leads nowhere else. Then flooding sends no copy off the way that could turn round later. */
module NetworkOnce {
  import opened Addressing
  import opened Bytes
  import opened Frames
  import opened SwitchTable
  import opened Wiring
  import opened Network
  import opened NetworkDelivery
  import opened NetworkUnicast
  import opened NetworkContinuations

  /** Interface `p` leads to a switch off the way from `h` to `dst`, and `s` would flood it. */
  ghost predicate Detour(t: Topology, n: Net, h: Mac, dst: Mac, s: SwitchId, p: nat) {
    && Between(t, s, h, dst) && !Knows(n, s, dst)
    && HasPort(t, s, p) && t.ports[s][p].Trunk? && p != t.toward(s, h) && p != t.toward(s, dst)
  }

  /** No switch between the two stations that does not know `dst` has a trunk off the way. */
  ghost predicate Straight(t: Topology, n: Net, h: Mac, dst: Mac) {
    forall s, p :: !Detour(t, n, h, dst, s, p)
  }

  // On a straight way a frame arrives once

  ghost predicate OnWay(t: Topology, c: Copy, h: Mac, dst: Mac) {
    c.at.ToStation? || Between(t, c.at.s, h, dst)
  }

  ghost predicate AllOnWay(t: Topology, id: nat, cs: seq<Copy>, h: Mac, dst: Mac) {
    forall c :: c in cs && c.frame.id == id ==> OnWay(t, c, h, dst)
  }

  /** The destination is ahead of one copy or was delivered to, and every copy in flight is on the way. */
  ghost predicate OnStraightWay(t: Topology, n: Net, id: nat, h: Mac, dst: Mac) {
    && h != dst && dst in t.attach && Straight(t, n, h, dst)
    && id < |n.sent| && n.sent[id].src == h && n.sent[id].dst == dst
    && AccountedOnce(t, n, id, dst) && AllOnWay(t, id, n.flight, h, dst)
  }

  lemma GrowthKeepsStraight(t: Topology, n: Net, n': Net, h: Mac, dst: Mac)
    requires Straight(t, n, h, dst) && Grows(n, n')
    ensures Straight(t, n', h, dst)
  {
    forall s, p
      ensures !Detour(t, n', h, dst, s, p)
    {
      assert !Detour(t, n, h, dst, s, p);
    }
  }

  /** On a straight way every interface used leads to the destination, or to a station. */
  lemma OutStaysOnWay(t: Topology, n: Net, s: SwitchId, c: Copy, q: nat)
    requires LoopFree(t) && TablesCorrect(t, n) && Knows(n, s, c.frame.src)
    requires Between(t, s, c.frame.src, c.frame.dst) && Straight(t, n, c.frame.src, c.frame.dst)
    requires q in Interfaces(t, n, s, c.frame) && HasPort(t, s, q)
    ensures q != t.toward(s, c.frame.src)
    ensures OnWay(t, Copy(c.frame, FarEnd(t, s, q), c.hops + 1), c.frame.src, c.frame.dst)
  {
    var h, dst := c.frame.src, c.frame.dst;
    assert EntryCorrect(t, n, s, h);
    if Knows(n, s, dst) {
      assert EntryCorrect(t, n, s, dst);
    } else {
      FloodPortsAreAllButOne(|t.ports[s]|, t.toward(s, h));
      assert !Detour(t, n, h, dst, s, q);
    }
    if t.ports[s][q].Trunk? {
      var s', p' := WayBack(t, s, dst);
      assert t.toward(s', h) == p';
    }
  }

  lemma OutsStayOnWay(t: Topology, n: Net, s: SwitchId, c: Copy, ports: seq<nat>)
    requires LoopFree(t) && TablesCorrect(t, n) && Knows(n, s, c.frame.src)
    requires Between(t, s, c.frame.src, c.frame.dst) && Straight(t, n, c.frame.src, c.frame.dst)
    requires ports == Interfaces(t, n, s, c.frame) && forall p :: p in ports ==> HasPort(t, s, p)
    ensures forall o :: o in CopiesOut(t, s, ports, c) ==> OnWay(t, o, c.frame.src, c.frame.dst)
  {
    forall o | o in CopiesOut(t, s, ports, c)
      ensures OnWay(t, o, c.frame.src, c.frame.dst)
    {
      var k :| 0 <= k < |ports| && CopiesOut(t, s, ports, c)[k] == o;
      OutStaysOnWay(t, n, s, c, ports[k]);
    }
  }

  /** The copies that replace one on the way have the destination ahead of exactly one of them. */
  lemma ForwardKeepsDestination(t: Topology, n: Net, i: nat, id: nat, h: Mac, dst: Mac)
    requires LoopFree(t) && Correct(t, n) && Enabled(t, n, Forward(i)) && OnStraightWay(t, n, id, h, dst)
    ensures var c := n.flight[i]; var out := CopiesOut(t, c.at.s, Interfaces(t, n, c.at.s, c.frame), c);
            Covering(t, id, out, dst) == Covering(t, id, [c], dst) && AllOnWay(t, id, out, h, dst)
  {
    var c := n.flight[i];
    var s, ports := c.at.s, Interfaces(t, n, c.at.s, c.frame);
    assert c in n.flight && CopyCorrect(t, n, c);
    if c.frame.id != id {
      OthersCoverNothing(t, s, ports, c, id, dst);
    } else {
      assert OnWay(t, c, h, dst) && EntryCorrect(t, n, s, h);
      if Knows(n, s, dst) {
        assert EntryCorrect(t, n, s, dst);
        OneOutCovers(t, s, t.toward(s, dst), c, dst);
      } else {
        FloodCovers(t, s, |t.ports[s]|, c, dst);
      }
      OutsStayOnWay(t, n, s, c, ports);
    }
  }

  lemma ForwardKeepsStraightWay(t: Topology, n: Net, i: nat, n': Net, id: nat, h: Mac, dst: Mac)
    requires LoopFree(t) && Correct(t, n) && Enabled(t, n, Forward(i)) && n' == Next(t, n, Forward(i))
    requires OnStraightWay(t, n, id, h, dst)
    ensures AccountedOnce(t, n', id, dst) && AllOnWay(t, id, n'.flight, h, dst)
  {
    var c := n.flight[i];
    var out := CopiesOut(t, c.at.s, Interfaces(t, n, c.at.s, c.frame), c);
    CoveringWithout(t, id, n.flight, i, dst);
    ForwardKeepsDestination(t, n, i, id, h, dst);
    CoveringOfParts(t, id, Without(n.flight, i), out, dst);
    WithoutIsPart(n.flight, i);
  }

  lemma RemovalKeepsStraightWay(t: Topology, n: Net, m: Move, n': Net, id: nat, h: Mac, dst: Mac)
    requires Enabled(t, n, m) && n' == Next(t, n, m) && (m.Deliver? || m.Drop?)
    requires OnStraightWay(t, n, id, h, dst)
    ensures AccountedOnce(t, n', id, dst) && AllOnWay(t, id, n'.flight, h, dst)
  {
    WithoutIsPart(n.flight, m.i);
    CoveringWithout(t, id, n.flight, m.i, dst);
    CoveringOfParts(t, id, if m.Deliver? then n.received else n.dropped, [n.flight[m.i]], dst);
  }

  lemma ReceiveKeepsStraightWay(t: Topology, n: Net, i: nat, n': Net, id: nat, h: Mac, dst: Mac)
    requires Enabled(t, n, Receive(i)) && n' == Next(t, n, Receive(i)) && OnStraightWay(t, n, id, h, dst)
    ensures AccountedOnce(t, n', id, dst) && AllOnWay(t, id, n'.flight, h, dst)
  {
    assert n.flight[i] in n.flight;
    ReceiveKeepsAccounts(t, n, i, id, dst);
  }

  lemma StepKeepsStraightWay(t: Topology, n: Net, m: Move, n': Net, id: nat, h: Mac, dst: Mac)
    requires LoopFree(t) && Correct(t, n) && Enabled(t, n, m) && n' == Next(t, n, m) && Grows(n, n')
    requires OnStraightWay(t, n, id, h, dst)
    ensures OnStraightWay(t, n', id, h, dst)
  {
    GrowthKeepsStraight(t, n, n', h, dst);
    match m
    case Send(_, _, _) => CoveringOfParts(t, id, n.flight, [n'.flight[|n.flight|]], dst);
    case Receive(i) => ReceiveKeepsStraightWay(t, n, i, n', id, h, dst);
    case Forward(i) => ForwardKeepsStraightWay(t, n, i, n', id, h, dst);
    case Deliver(_) => RemovalKeepsStraightWay(t, n, m, n', id, h, dst);
    case Drop(_) => RemovalKeepsStraightWay(t, n, m, n', id, h, dst);
  }

  lemma SentStraight(t: Topology, n: Net, h: Mac, dst: Mac, payload: seq<byte>, n': Net)
    requires LoopFree(t) && Correct(t, n)
    requires Enabled(t, n, Send(h, dst, payload)) && n' == Next(t, n, Send(h, dst, payload))
    requires h != dst && dst in t.attach && Straight(t, n, h, dst) && Grows(n, n')
    ensures OnStraightWay(t, n', |n.sent|, h, dst)
  {
    GrowthKeepsStraight(t, n, n', h, dst);
    SendAccounts(t, n, h, dst, payload, dst);
    var c := n'.flight[|n.flight|];
    StationAcross(t, c.at.s, c.at.port);
    assert dst !in {h};
    forall d | d in n.flight
      ensures d.frame.id != |n.sent|
    {
      assert CopyCorrect(t, n, d);
    }
  }

  lemma {:induction false} StraightWayStays(t: Topology, run: seq<Net>, j: nat, k: nat, id: nat, h: Mac, dst: Mac)
    requires LoopFree(t) && IsRun(t, run) && j <= k < |run| && OnStraightWay(t, run[j], id, h, dst)
    ensures OnStraightWay(t, run[k], id, h, dst)
    decreases k - j
  {
    if j < k {
      NextStaysStraight(t, run, j, run[j], run[j + 1], id, h, dst);
      StraightWayStays(t, run, j + 1, k, id, h, dst);
    }
  }

  lemma NextStaysStraight(t: Topology, run: seq<Net>, k: nat, n: Net, n': Net, id: nat, h: Mac, dst: Mac)
    requires LoopFree(t) && IsRun(t, run) && k + 1 < |run| && n == run[k] && n' == run[k + 1]
    requires OnStraightWay(t, n, id, h, dst)
    ensures OnStraightWay(t, n', id, h, dst)
  {
    NetworkStaysCorrect(t, run, k);
    NextGrows(t, run, k, n, n');
    var m :| Enabled(t, n, m) && n' == Next(t, n, m);
    StepKeepsStraightWay(t, n, m, n', id, h, dst);
  }

  /** Only its destination processes a frame for a station, as often as it was delivered there. */
  lemma {:induction false} UnicastIsProcessedWhereReceived(t: Topology, n: Net, id: nat, received: seq<Copy>, o: Mac)
    requires CopiesCorrect(t, n, received) && (forall c :: c in received ==> c.at.ToStation?)
    requires id < |n.sent| && n.sent[id].dst != BROADCAST_MAC
    ensures Processed(id, received, o) == if o == n.sent[id].dst then Covering(t, id, received, o) else 0
  {
    if received != [] {
      assert received[0] in received;
      UnicastIsProcessedWhereReceived(t, n, id, received[1..], o);
    }
  }

  /** `whole` goes on from `run` with the move `m`. */
  ghost predicate GoesOnWith(t: Topology, run: seq<Net>, m: Move, whole: seq<Net>)
    requires run != []
  {
    && IsRun(t, whole) && run <= whole && |run| < |whole|
    && Enabled(t, Last(run), m) && whole[|run|] == Next(t, Last(run), m)
  }

  /** On a straight way a frame is processed by its destination at most once, by nobody else, and exactly
      once when no copy is in flight and none was dropped, whatever is learned and sent meanwhile. */
  lemma StraightArrivesOnce(t: Topology, run: seq<Net>, whole: seq<Net>, k: nat,
                            h: Mac, dst: Mac, payload: seq<byte>, o: Mac)
    requires LoopFree(t) && IsRun(t, run) && h in t.attach && dst in t.attach && Straight(t, Last(run), h, dst)
    requires GoesOnWith(t, run, Send(h, dst, payload), whole) && |run| <= k < |whole|
    ensures var id := |Last(run).sent|; Processed(id, whole[k].received, o) <= if o == dst then 1 else 0
    ensures var id := |Last(run).sent|; NoneLeft(id, whole[k].flight) && NoneLeft(id, whole[k].dropped) ==>
              Processed(id, whole[k].received, dst) == 1
  {
    var id, j := |Last(run).sent|, |run| - 1;
    assert whole[j] == Last(run);
    if h == dst {
      UnicastToKnownArrivesOnce(t, whole, j, k, h, dst, payload, o);
    } else {
      StartsStraight(t, whole, j, Last(run), whole[j + 1], h, dst, payload);
      StraightWayStays(t, whole, j + 1, k, id, h, dst);
      NetworkStaysCorrect(t, whole, k);
      ProcessedOnce(t, whole[k], id, h, dst, o);
    }
  }

  lemma StartsStraight(t: Topology, run: seq<Net>, j: nat, n: Net, n': Net, h: Mac, dst: Mac, payload: seq<byte>)
    requires LoopFree(t) && IsRun(t, run) && j + 1 < |run| && n == run[j] && n' == run[j + 1]
    requires Enabled(t, n, Send(h, dst, payload)) && n' == Next(t, n, Send(h, dst, payload))
    requires h != dst && dst in t.attach && Straight(t, n, h, dst)
    ensures OnStraightWay(t, n', |n.sent|, h, dst)
  {
    NetworkStaysCorrect(t, run, j);
    NextGrows(t, run, j, n, n');
    SentStraight(t, n, h, dst, payload, n');
  }

  lemma ProcessedOnce(t: Topology, n: Net, id: nat, h: Mac, dst: Mac, o: Mac)
    requires LoopFree(t) && Correct(t, n) && OnStraightWay(t, n, id, h, dst)
    ensures Processed(id, n.received, o) <= if o == dst then 1 else 0
    ensures NoneLeft(id, n.flight) && NoneLeft(id, n.dropped) ==> Processed(id, n.received, dst) == 1
  {
    UnicastIsProcessedWhereReceived(t, n, id, n.received, o);
    UnicastIsProcessedWhereReceived(t, n, id, n.received, dst);
    if NoneLeft(id, n.flight) && NoneLeft(id, n.dropped) {
      NoneLeftCoversNothing(t, id, n.flight, dst);
      NoneLeftCoversNothing(t, id, n.dropped, dst);
    }
  }

  // Off a straight way it can arrive twice

  lemma {:induction false} ProcessedOneMore(id: nat, received: seq<Copy>, c: Copy, h: Mac)
    ensures Processed(id, received + [c], h) == Processed(id, received, h) + Processed(id, [c], h)
  {
    if received == [] {
      assert received + [c] == [c];
    } else {
      assert (received + [c])[1..] == received[1..] + [c];
      ProcessedOneMore(id, received[1..], c, h);
    }
  }

  lemma ArrivalIsProcessed(n: Net, n': Net, f: Frame)
    requires Arrives(n, n', f)
    ensures Processed(f.id, n'.received, f.dst) == Processed(f.id, n.received, f.dst) + 1
  {
    var hops :| n'.received == n.received + [Copy(f, ToStation(f.dst), hops)];
    var c := Copy(f, ToStation(f.dst), hops);
    ProcessedOneMore(f.id, n.received, c, f.dst);
    assert [c][1..] == [];
  }

  lemma NewFrameIsUnprocessed(t: Topology, n: Net, received: seq<Copy>, h: Mac)
    requires CopiesCorrect(t, n, received)
    ensures Processed(|n.sent|, received, h) == 0
  {
    if received != [] {
      assert received[0] in received;
      NewFrameIsUnprocessed(t, n, received[1..], h);
    }
  }

  /** The frame is brought to the switch with the detour, which floods it: one copy toward the destination
      and one off the way. */
  lemma Flood(t: Topology, run: seq<Net>, f: Frame, sent: Copy, s: SwitchId, p: nat)
    returns (longer: seq<Net>, ahead: Copy, aside: Copy)
    requires LoopFree(t) && IsRun(t, run) && f.src != f.dst && Detour(t, Last(run), f.src, f.dst, s, p)
    requires sent in Last(run).flight && sent.frame == f && sent.at.OnWire? && sent.at.s == t.attach[f.src].0
    ensures IsRun(t, longer) && run <= longer && LearnsOnly(Last(run), Last(longer), f.src)
    ensures ahead in Last(longer).flight && ahead.frame == f && ahead.at == FarEnd(t, s, t.toward(s, f.dst))
    ensures aside in Last(longer).flight && aside.frame == f && aside.at == FarEnd(t, s, p) && aside != ahead
  {
    FarEndsDiffer(t, s, p, t.toward(s, f.dst));
    var near, c := Bring(t, run, sent, s);
    assert WillCross(t, Last(near), s, f, p);
    longer, ahead := Hop(t, near, c, t.toward(s, f.dst));
    aside := Copy(f, FarEnd(t, s, p), c.hops + 1);
    LearnsThen(Last(run), Last(near), Last(longer), f.src);
  }

  /** What lies toward the destination is the destination or a switch on the way to it. */
  lemma AheadIsOnWay(t: Topology, s: SwitchId, h: Mac, dst: Mac)
    requires LoopFree(t) && Between(t, s, h, dst)
    ensures match FarEnd(t, s, t.toward(s, dst))
            case ToStation(o) => o == dst
            case OnWire(s', _) => Between(t, s', h, dst)
            case InSwitch(_) => false
  {
    if s != t.attach[dst].0 {
      var s', p' := WayBack(t, s, dst);
      assert t.toward(s', h) == p';
    }
  }

  /** The switch off the way, and its interface back. */
  lemma Aside(t: Topology, s: SwitchId, p: nat, h: Mac, dst: Mac) returns (u: SwitchId, p': nat)
    requires LoopFree(t) && Between(t, s, h, dst) && HasPort(t, s, p) && t.ports[s][p].Trunk? && p != t.toward(s, dst)
    ensures t.ports[s][p] == Trunk(u, p') && HasPort(t, u, p')
    ensures t.ports[u][p'] == Trunk(s, p) && t.toward(u, dst) == p'
  {
    var Trunk(r, q) := t.ports[s][p];
    u, p' := r, q;
    assert TrunkGoesBack(t.ports, s, p) && CrossingLaw(t, s, dst, p);
  }

  ghost predicate NoneArrived(n: Net, n': Net) {
    n'.received == n.received && n'.dropped == n.dropped
  }

  lemma StationCanSend(t: Topology, run: seq<Net>, h: Mac, dst: Mac, payload: seq<byte>)
    returns (longer: seq<Net>, sent: Copy)
    requires LoopFree(t) && IsRun(t, run) && h in t.attach
    ensures Enabled(t, Last(run), Send(h, dst, payload)) && longer == run + [Next(t, Last(run), Send(h, dst, payload))]
    ensures IsRun(t, longer) && run <= longer && NoneArrived(Last(run), Last(longer))
    ensures sent.frame == Frame(|Last(run).sent|, h, dst, payload) && sent.at.OnWire? && sent.at.s == t.attach[h].0
    ensures sent in Last(longer).flight && Last(longer).tables == Last(run).tables
    ensures forall d :: InFlight(Last(longer), d) >= InFlight(Last(run), d)
  {
    var n := Last(run);
    var n' := Next(t, n, Send(h, dst, payload));
    longer := GoOn(t, run, Send(h, dst, payload), n, n');
    sent := n'.flight[|n.flight|];
  }

  lemma OldCopyIsAnother(t: Topology, run: seq<Net>, c: Copy)
    requires LoopFree(t) && IsRun(t, run) && c in Last(run).flight
    ensures c.frame.id < |Last(run).sent|
  {
    NetworkStaysCorrect(t, run, |run| - 1);
    assert CopyCorrect(t, Last(run), c);
  }

  /** While a copy waits inside a switch, its destination broadcasts, and the switch learns where it is. */
  lemma Teach(t: Topology, run: seq<Net>, waiting: Copy, dst: Mac) returns (longer: seq<Net>)
    requires LoopFree(t) && IsRun(t, run) && waiting in Last(run).flight && waiting.at.InSwitch?
    requires waiting.at.s in t.ports && dst in t.attach
    ensures IsRun(t, longer) && run <= longer && NoneArrived(Last(run), Last(longer))
    ensures waiting in Last(longer).flight && Knows(Last(longer), waiting.at.s, dst)
  {
    OldCopyIsAnother(t, run, waiting);
    var asked, sent := StationCanSend(t, run, dst, BROADCAST_MAC, []);
    var near, c := Bring(t, asked, sent, waiting.at.s);
    assert InFlight(Last(near), waiting) >= InFlight(Last(asked), waiting) >= InFlight(Last(run), waiting) > 0;
    var inside;
    longer, inside := TakeIn(t, near, c);
    assert InFlight(Last(longer), waiting) >= InFlight(Last(near), waiting);
  }

  /** The waiting copy is popped, goes back the way it came, and on to its destination. */
  lemma TurnRound(t: Topology, run: seq<Net>, waiting: Copy, s: SwitchId, p: nat) returns (longer: seq<Net>)
    requires LoopFree(t) && IsRun(t, run) && waiting in Last(run).flight && waiting.frame.src != waiting.frame.dst
    requires Between(t, s, waiting.frame.src, waiting.frame.dst) && HasPort(t, s, p) && t.ports[s][p].Trunk?
    requires p != t.toward(s, waiting.frame.dst) && waiting.at == InSwitch(t.ports[s][p].sw)
    requires Knows(Last(run), t.ports[s][p].sw, waiting.frame.dst)
    ensures IsRun(t, longer) && run <= longer && Arrives(Last(run), Last(longer), waiting.frame)
  {
    var f := waiting.frame;
    var u, p' := Aside(t, s, p, f.src, f.dst);
    ReachedIsCorrect(t, run, Last(run));
    assert CopyCorrect(t, Last(run), waiting);
    CrossedNext(t, Last(run), u, f, p');
    var turned, back := SendOut(t, run, waiting, p');
    longer := Home(t, turned, back);
    ArrivesAfter(Last(run), Last(turned), Last(longer), f);
  }

  ghost predicate ProcessedAgain(n: Net, n': Net, f: Frame) {
    n'.dropped == n.dropped && Processed(f.id, n'.received, f.dst) == Processed(f.id, n.received, f.dst) + 1
  }

  lemma FirstCopyArrives(t: Topology, run: seq<Net>, f: Frame, sent: Copy, s: SwitchId, p: nat)
    returns (longer: seq<Net>, aside: Copy)
    requires LoopFree(t) && IsRun(t, run) && f.src != f.dst && Detour(t, Last(run), f.src, f.dst, s, p)
    requires sent in Last(run).flight && sent.frame == f && sent.at.OnWire? && sent.at.s == t.attach[f.src].0
    ensures IsRun(t, longer) && run <= longer && ProcessedAgain(Last(run), Last(longer), f)
    ensures aside in Last(longer).flight && aside.frame == f && aside.at == FarEnd(t, s, p)
  {
    var flooded, ahead;
    flooded, ahead, aside := Flood(t, run, f, sent, s, p);
    AheadIsOnWay(t, s, f.src, f.dst);
    var u, p' := Aside(t, s, p, f.src, f.dst);
    longer := Home(t, flooded, ahead);
    assert InFlight(Last(longer), aside) >= InFlight(Last(flooded), aside) > 0;
    ArrivalIsProcessed(Last(flooded), Last(longer), f);
  }

  lemma FarEndsDiffer(t: Topology, s: SwitchId, p: nat, q: nat)
    requires LoopFree(t) && HasPort(t, s, p) && HasPort(t, s, q) && p != q && t.ports[s][p].Trunk?
    ensures FarEnd(t, s, p) != FarEnd(t, s, q)
  {
    assert TrunkGoesBack(t.ports, s, p);
    assert t.ports[s][q].Trunk? ==> TrunkGoesBack(t.ports, s, q);
  }

  lemma SecondCopyArrives(t: Topology, run: seq<Net>, aside: Copy, s: SwitchId, p: nat) returns (longer: seq<Net>)
    requires LoopFree(t) && IsRun(t, run) && aside in Last(run).flight && aside.frame.src != aside.frame.dst
    requires Between(t, s, aside.frame.src, aside.frame.dst) && HasPort(t, s, p) && t.ports[s][p].Trunk?
    requires p != t.toward(s, aside.frame.dst) && aside.at == FarEnd(t, s, p)
    ensures IsRun(t, longer) && run <= longer && ProcessedAgain(Last(run), Last(longer), aside.frame)
  {
    var u, p' := Aside(t, s, p, aside.frame.src, aside.frame.dst);
    var queued, waiting := TakeIn(t, run, aside);
    var taught := Teach(t, queued, waiting, aside.frame.dst);
    longer := TurnRound(t, taught, waiting, s, p);
    ArrivalIsProcessed(Last(taught), Last(longer), aside.frame);
  }

  /** From any reachable state with a detour between two stations, there is a way to go on in which a frame
      sent now is processed twice, and none of its copies is dropped. */
  lemma DetourArrivesTwice(t: Topology, run: seq<Net>, h: Mac, dst: Mac, payload: seq<byte>, s: SwitchId, p: nat)
    returns (whole: seq<Net>)
    requires LoopFree(t) && IsRun(t, run) && Detour(t, Last(run), h, dst, s, p)
    ensures GoesOnWith(t, run, Send(h, dst, payload), whole)
    ensures Processed(|Last(run).sent|, Last(whole).received, dst) == 2 && Last(whole).dropped == Last(run).dropped
  {
    var f := Frame(|Last(run).sent|, h, dst, payload);
    var start, sent := StationCanSend(t, run, h, dst, payload);
    assert Detour(t, Last(start), h, dst, s, p);
    var once, aside := FirstCopyArrives(t, start, f, sent, s, p);
    whole := SecondCopyArrives(t, once, aside, s, p);
    NetworkStaysCorrect(t, run, |run| - 1);
    NewFrameIsUnprocessed(t, Last(run), Last(run).received, dst);
  }

  /** Whatever happens next, a frame sent now is processed at most once by its destination. */
  ghost predicate ArrivesAtMostOnce(t: Topology, run: seq<Net>, h: Mac, dst: Mac, payload: seq<byte>)
    requires run != []
  {
    forall whole: seq<Net>, k: nat :: GoesOnWith(t, run, Send(h, dst, payload), whole) && |run| <= k < |whole| ==>
      Processed(|Last(run).sent|, whole[k].received, dst) <= 1
  }

  /** A frame for a station is safe from arriving twice exactly when the way is straight as it is sent. */
  lemma ArrivesOnceIffStraight(t: Topology, run: seq<Net>, h: Mac, dst: Mac, payload: seq<byte>)
    requires LoopFree(t) && IsRun(t, run) && h in t.attach && dst in t.attach
    ensures ArrivesAtMostOnce(t, run, h, dst, payload) <==> Straight(t, Last(run), h, dst)
  {
    if Straight(t, Last(run), h, dst) {
      forall whole: seq<Net>, k: nat | GoesOnWith(t, run, Send(h, dst, payload), whole) && |run| <= k < |whole|
        ensures Processed(|Last(run).sent|, whole[k].received, dst) <= 1
      {
        StraightArrivesOnce(t, run, whole, k, h, dst, payload, dst);
      }
    } else {
      var s, p :| Detour(t, Last(run), h, dst, s, p);
      var whole := DetourArrivesTwice(t, run, h, dst, payload, s, p);
      assert whole[|whole| - 1] == Last(whole);
    }
  }

  // Straight ways

  /** With one switch every way is straight, whatever it has learned. */
  lemma OneSwitchIsStraight(t: Topology, n: Net, only: SwitchId, h: Mac, dst: Mac)
    requires LoopFree(t) && t.ports.Keys == {only}
    ensures Straight(t, n, h, dst)
  {
    forall s, p
      ensures !Detour(t, n, h, dst, s, p)
    {
      if Detour(t, n, h, dst, s, p) {
        TrunkLeadsElsewhere(t, s, h, p);
      }
    }
  }

  lemma TrunkLeadsElsewhere(t: Topology, s: SwitchId, h: Mac, p: nat)
    requires LoopFree(t) && h in t.attach && HasPort(t, s, p) && t.ports[s][p].Trunk?
    ensures t.ports[s][p].sw in t.ports.Keys - {s}
  {
    assert TrunkGoesBack(t.ports, s, p) && CrossingLaw(t, s, h, p);
  }

  /** A way is straight when the sender's switch knows the destination: so do all switches between. */
  lemma KnownIsStraight(t: Topology, n: Net, h: Mac, dst: Mac)
    requires LoopFree(t) && TablesCorrect(t, n) && h in t.attach && Knows(n, t.attach[h].0, dst)
    ensures Straight(t, n, h, dst)
  {
    forall s, p
      ensures !Detour(t, n, h, dst, s, p)
    {
      if Between(t, s, h, dst) {
        KnownBetween(t, n, h, dst, s);
      }
    }
  }

  lemma {:induction false} KnownBetween(t: Topology, n: Net, h: Mac, dst: Mac, s: SwitchId)
    requires LoopFree(t) && TablesCorrect(t, n) && Between(t, s, h, dst) && Knows(n, t.attach[h].0, dst)
    ensures Knows(n, s, dst)
    decreases t.dist(s, h)
  {
    if s != t.attach[h].0 {
      var s', p' := WayBack(t, s, h);
      KnownBetween(t, n, h, dst, s');
      assert EntryCorrect(t, n, s', dst);
    }
  }
}
