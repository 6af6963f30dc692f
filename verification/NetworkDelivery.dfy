/** Who gets a frame. A frame for nobody in particular reaches every other station exactly once, a frame
    for a station reaches it, unless a queue drops it. */
module NetworkDelivery {
  import opened Addressing
  import opened Frames
  import opened SwitchTable
  import opened Wiring
  import opened Network

  /** The stations a copy still has ahead of it while it is being flooded. */
  ghost function Ahead(t: Topology, src: Mac, at: Location): set<Mac> {
    match at
    case OnWire(s, _) => NotBehind(t, src, s)
    case InSwitch(s) => NotBehind(t, src, s)
    case ToStation(h) => {h}
  }

  ghost function NotBehind(t: Topology, src: Mac, s: SwitchId): set<Mac> {
    set h | h in t.attach && t.toward(s, h) != t.toward(s, src)
  }

  /** How many copies of frame `id` among `cs` have station `h` ahead of them. */
  ghost function Covering(t: Topology, id: nat, cs: seq<Copy>, h: Mac): nat {
    if cs == [] then 0
    else (if cs[0].frame.id == id && h in Ahead(t, cs[0].frame.src, cs[0].at) then 1 else 0)
         + Covering(t, id, cs[1..], h)
  }

  /** Station `h`, unless it is the source, is accounted for once: it was delivered to, or it is ahead of
      one copy in flight or dropped. */
  ghost predicate AccountedOnce(t: Topology, n: Net, id: nat, h: Mac)
    requires id < |n.sent|
  {
    Covering(t, id, n.flight, h) + Covering(t, id, n.dropped, h) + Covering(t, id, n.received, h)
    == if h in t.attach && h != n.sent[id].src then 1 else 0
  }

  lemma {:induction false} CoveringOfParts(t: Topology, id: nat, x: seq<Copy>, y: seq<Copy>, h: Mac)
    ensures Covering(t, id, x + y, h) == Covering(t, id, x, h) + Covering(t, id, y, h)
  {
    if x == [] {
      assert x + y == y;
    } else {
      CoveringOfParts(t, id, x[1..], y, h);
      assert (x + y)[1..] == x[1..] + y;
    }
  }

  lemma CoveringWithout(t: Topology, id: nat, cs: seq<Copy>, i: nat, h: Mac)
    requires i < |cs|
    ensures Covering(t, id, cs, h) == Covering(t, id, Without(cs, i), h) + Covering(t, id, [cs[i]], h)
  {
    CoveringOfParts(t, id, cs[..i], cs[i + 1..], h);
    CoveringOfParts(t, id, cs[..i], cs[i..], h);
    assert cs == cs[..i] + cs[i..] && cs[i..][1..] == cs[i + 1..];
  }

  lemma {:induction false} CopiesOutOfParts(t: Topology, s: SwitchId, x: seq<nat>, y: seq<nat>, c: Copy)
    requires (forall p :: p in x ==> HasPort(t, s, p)) && forall p :: p in y ==> HasPort(t, s, p)
    ensures CopiesOut(t, s, x + y, c) == CopiesOut(t, s, x, c) + CopiesOut(t, s, y, c)
  {
    if x == [] {
      assert x + y == y;
    } else {
      assert (x + y)[1..] == x[1..] + y;
      CopiesOutOfParts(t, s, x[1..], y, c);
    }
  }

  /** What is ahead, across an interface that does not lead to the source, is what it leads to. */
  lemma AheadAcross(t: Topology, src: Mac, s: SwitchId, p: nat)
    requires LoopFree(t) && src in t.attach && HasPort(t, s, p) && p != t.toward(s, src)
    ensures Ahead(t, src, FarEnd(t, s, p)) == set h | h in t.attach && t.toward(s, h) == p
  {
    match t.ports[s][p]
    case Station(h) => StationAcross(t, s, p);
    case Trunk(s', p') =>
      assert TrunkGoesBack(t.ports, s, p) && CrossingLaw(t, s, src, p);
      forall h | h in t.attach
        ensures t.toward(s', h) != p' <==> t.toward(s, h) == p
      {
        assert CrossingLaw(t, s, h, p) && CrossingLaw(t, s', h, p');
      }
  }

  /** An interface with a station on it leads to that station only. */
  lemma StationAcross(t: Topology, s: SwitchId, p: nat)
    requires LoopFree(t) && HasPort(t, s, p) && t.ports[s][p].Station?
    ensures (set h | h in t.attach && t.toward(s, h) == p) == {t.ports[s][p].host}
  {
  }

  lemma {:induction false} FloodCovers(t: Topology, s: SwitchId, k: nat, c: Copy, h: Mac)
    requires LoopFree(t) && s in t.ports && k <= |t.ports[s]| && c.frame.src in t.attach
    requires forall p :: p in FloodPorts(k, t.toward(s, c.frame.src)) ==> HasPort(t, s, p)
    ensures Covering(t, c.frame.id, CopiesOut(t, s, FloodPorts(k, t.toward(s, c.frame.src)), c), h)
            == if h in t.attach && t.toward(s, h) < k && t.toward(s, h) != t.toward(s, c.frame.src) then 1 else 0
  {
    if k > 0 {
      var p, q := k - 1, t.toward(s, c.frame.src);
      if p == q {
        assert FloodPorts(k, q) == FloodPorts(p, q);
      } else {
        assert FloodPorts(k, q) == FloodPorts(p, q) + [p];
        CopiesOutOfParts(t, s, FloodPorts(p, q), [p], c);
        CoveringOfParts(t, c.frame.id, CopiesOut(t, s, FloodPorts(p, q), c), CopiesOut(t, s, [p], c), h);
        OneOutCovers(t, s, p, c, h);
      }
      FloodCovers(t, s, p, c, h);
    }
  }

  lemma OneOutCovers(t: Topology, s: SwitchId, p: nat, c: Copy, h: Mac)
    requires LoopFree(t) && c.frame.src in t.attach && HasPort(t, s, p) && p != t.toward(s, c.frame.src)
    ensures Covering(t, c.frame.id, CopiesOut(t, s, [p], c), h) == if h in t.attach && t.toward(s, h) == p then 1 else 0
  {
    AheadAcross(t, c.frame.src, s, p);
    var out := CopiesOut(t, s, [p], c);
    assert out == [Copy(c.frame, FarEnd(t, s, p), c.hops + 1)] && out[1..] == [];
  }

  lemma UnownedIsUnknown(t: Topology, n: Net, s: SwitchId, m: Mac)
    requires TablesCorrect(t, n) && m !in t.attach
    ensures !Knows(n, s, m)
  {
    assert Knows(n, s, m) ==> EntryCorrect(t, n, s, m);
  }

  /** Flooding hands every station ahead of a copy to exactly one of the copies that replace it. */
  lemma ForwardKeepsCovering(t: Topology, n: Net, i: nat, id: nat, h: Mac)
    requires LoopFree(t) && Correct(t, n) && Enabled(t, n, Forward(i)) && id < |n.sent| && n.sent[id].dst !in t.attach
    ensures var c := n.flight[i];
            Covering(t, id, CopiesOut(t, c.at.s, Interfaces(t, n, c.at.s, c.frame), c), h) == Covering(t, id, [c], h)
  {
    var c := n.flight[i];
    assert c in n.flight;
    var s := c.at.s;
    if c.frame.id == id {
      UnownedIsUnknown(t, n, s, c.frame.dst);
      assert EntryCorrect(t, n, s, c.frame.src);
      FloodCovers(t, s, |t.ports[s]|, c, h);
    } else {
      OthersCoverNothing(t, s, Interfaces(t, n, s, c.frame), c, id, h);
    }
  }

  lemma {:induction false} OthersCoverNothing(t: Topology, s: SwitchId, ports: seq<nat>, c: Copy, id: nat, h: Mac)
    requires c.frame.id != id && forall p :: p in ports ==> HasPort(t, s, p)
    ensures Covering(t, id, CopiesOut(t, s, ports, c), h) == 0
  {
    if ports != [] {
      OthersCoverNothing(t, s, ports[1..], c, id, h);
      assert CopiesOut(t, s, ports, c)[1..] == CopiesOut(t, s, ports[1..], c);
    }
  }

  ghost predicate NoneLeft(id: nat, cs: seq<Copy>) {
    forall c :: c in cs ==> c.frame.id != id
  }

  lemma {:induction false} NoneLeftCoversNothing(t: Topology, id: nat, cs: seq<Copy>, h: Mac)
    requires NoneLeft(id, cs)
    ensures Covering(t, id, cs, h) == 0
  {
    if cs != [] {
      assert cs[0] in cs;
      NoneLeftCoversNothing(t, id, cs[1..], h);
    }
  }

  lemma SendAccounts(t: Topology, n: Net, h: Mac, dst: Mac, payload: seq<Bytes.byte>, o: Mac)
    requires LoopFree(t) && Correct(t, n) && Enabled(t, n, Send(h, dst, payload))
    ensures AccountedOnce(t, Next(t, n, Send(h, dst, payload)), |n.sent|, o)
  {
    var n' := Next(t, n, Send(h, dst, payload));
    var id := |n.sent|;
    var c := n'.flight[|n.flight|];
    CoveringOfParts(t, id, n.flight, [c], o);
    NoneLeftCoversNothing(t, id, n.flight, o);
    NoneLeftCoversNothing(t, id, n.dropped, o);
    NoneLeftCoversNothing(t, id, n.received, o);
    StationAcross(t, c.at.s, c.at.port);
    var alone := set x | x in t.attach && t.toward(c.at.s, x) == c.at.port;
    assert o in t.attach ==> (t.toward(c.at.s, o) == c.at.port <==> o in alone);
  }

  lemma ReceiveKeepsAccounts(t: Topology, n: Net, i: nat, id: nat, h: Mac)
    requires Enabled(t, n, Receive(i)) && id < |n.sent| && AccountedOnce(t, n, id, h)
    ensures AccountedOnce(t, Next(t, n, Receive(i)), id, h)
  {
    var n' := Next(t, n, Receive(i));
    CoveringWithout(t, id, n.flight, i, h);
    CoveringWithout(t, id, n'.flight, i, h);
    assert Without(n'.flight, i) == Without(n.flight, i);
  }

  lemma ForwardKeepsAccounts(t: Topology, n: Net, i: nat, id: nat, h: Mac)
    requires LoopFree(t) && Correct(t, n) && Enabled(t, n, Forward(i))
    requires id < |n.sent| && n.sent[id].dst !in t.attach && AccountedOnce(t, n, id, h)
    ensures AccountedOnce(t, Next(t, n, Forward(i)), id, h)
  {
    var c := n.flight[i];
    CoveringWithout(t, id, n.flight, i, h);
    ForwardKeepsCovering(t, n, i, id, h);
    CoveringOfParts(t, id, Without(n.flight, i), CopiesOut(t, c.at.s, Interfaces(t, n, c.at.s, c.frame), c), h);
  }

  lemma StepKeepsAccounts(t: Topology, n: Net, m: Move, id: nat, h: Mac)
    requires LoopFree(t) && Correct(t, n) && Enabled(t, n, m)
    requires id < |n.sent| && n.sent[id].dst !in t.attach && AccountedOnce(t, n, id, h)
    ensures id < |Next(t, n, m).sent| && AccountedOnce(t, Next(t, n, m), id, h)
  {
    match m
    case Send(_, _, _) =>
      CoveringOfParts(t, id, n.flight, [Next(t, n, m).flight[|n.flight|]], h);
    case Receive(i) => ReceiveKeepsAccounts(t, n, i, id, h);
    case Forward(i) => ForwardKeepsAccounts(t, n, i, id, h);
    case Deliver(i) =>
      CoveringWithout(t, id, n.flight, i, h);
      CoveringOfParts(t, id, n.received, [n.flight[i]], h);
    case Drop(i) =>
      CoveringWithout(t, id, n.flight, i, h);
      CoveringOfParts(t, id, n.dropped, [n.flight[i]], h);
  }

  /** At all times, the stations delivered to and the stations ahead of the copies in flight and of the
      copies dropped share out all stations but the source: each is in exactly one place. */
  lemma {:induction false} FloodingPartitionsStations(t: Topology, run: seq<Net>, k: nat, id: nat, h: Mac)
    requires LoopFree(t) && IsRun(t, run) && k < |run| && id < |run[k].sent| && run[k].sent[id].dst !in t.attach
    ensures AccountedOnce(t, run[k], id, h)
  {
    if k > 0 {
      NetworkStaysCorrect(t, run, k - 1);
      assert Step(t, run[k - 1], run[k - 1 + 1]);
      if id < |run[k - 1].sent| {
        SentFramesStay(t, run, k - 1, id);
        FloodingPartitionsStations(t, run, k - 1, id, h);
      }
      NextAccounts(t, run[k - 1], run[k], id, h);
    }
  }

  lemma SentFramesStay(t: Topology, run: seq<Net>, k: nat, id: nat)
    requires LoopFree(t) && IsRun(t, run) && k + 1 < |run| && id < |run[k].sent|
    ensures id < |run[k + 1].sent| && run[k + 1].sent[id] == run[k].sent[id]
  {
    BindingsNeverChange(t, run, k, k + 1);
  }

  lemma NextAccounts(t: Topology, n: Net, n': Net, id: nat, h: Mac)
    requires LoopFree(t) && Correct(t, n) && Step(t, n, n') && id < |n'.sent| && n'.sent[id].dst !in t.attach
    requires id < |n.sent| ==> n.sent[id] == n'.sent[id] && AccountedOnce(t, n, id, h)
    ensures AccountedOnce(t, n', id, h)
  {
    var m :| Enabled(t, n, m) && n' == Next(t, n, m);
    if id < |n.sent| {
      StepKeepsAccounts(t, n, m, id, h);
    } else {
      SendAccounts(t, n, m.h, m.dst, m.payload, h);
    }
  }

  /** The filter a host applies to a frame that reaches it. */
  predicate Accepts(h: Mac, f: Frame) {
    f.dst == h || f.dst == BROADCAST_MAC
  }

  /** How often station `h` got to process frame `id`. */
  ghost function Processed(id: nat, received: seq<Copy>, h: Mac): nat {
    if received == [] then 0
    else
      var c := received[0];
      (if c.frame.id == id && c.at == ToStation(h) && Accepts(h, c.frame) then 1 else 0)
      + Processed(id, received[1..], h)
  }

  lemma {:induction false} BroadcastIsProcessedWhereReceived(t: Topology, n: Net, id: nat, received: seq<Copy>, h: Mac)
    requires CopiesCorrect(t, n, received) && (forall c :: c in received ==> c.at.ToStation?)
    requires id < |n.sent| && n.sent[id].dst == BROADCAST_MAC
    ensures Processed(id, received, h) == Covering(t, id, received, h)
  {
    if received != [] {
      assert received[0] in received;
      BroadcastIsProcessedWhereReceived(t, n, id, received[1..], h);
    }
  }

  /** A broadcast is processed at most once by each station and never by its sender; when no copy is
      left and none was dropped, exactly once by every other station. */
  lemma BroadcastReachesEveryStationOnce(t: Topology, run: seq<Net>, k: nat, id: nat, h: Mac)
    requires LoopFree(t) && IsRun(t, run) && k < |run| && id < |run[k].sent| && run[k].sent[id].dst == BROADCAST_MAC
    ensures Processed(id, run[k].received, h) <= if h in t.attach && h != run[k].sent[id].src then 1 else 0
    ensures NoneLeft(id, run[k].flight) && NoneLeft(id, run[k].dropped) && h in t.attach && h != run[k].sent[id].src ==>
      Processed(id, run[k].received, h) == 1
  {
    var n := run[k];
    FloodingPartitionsStations(t, run, k, id, h);
    NetworkStaysCorrect(t, run, k);
    BroadcastIsProcessedWhereReceived(t, n, id, n.received, h);
    if NoneLeft(id, n.flight) && NoneLeft(id, n.dropped) {
      NoneLeftCoversNothing(t, id, n.flight, h);
      NoneLeftCoversNothing(t, id, n.dropped, h);
    }
  }

  /** The copy is with its destination, or at a place from which it gets there. */
  ghost predicate OnItsWay(t: Topology, n: Net, c: Copy) {
    match c.at
    case ToStation(h) => h == c.frame.dst
    case OnWire(s, _) => WillFind(t, n, s, c.frame)
    case InSwitch(s) => WillFind(t, n, s, c.frame)
  }

  ghost predicate WillFind(t: Topology, n: Net, s: SwitchId, f: Frame) {
    f.dst == f.src || Knows(n, s, f.dst) || t.toward(s, f.dst) != t.toward(s, f.src)
  }

  ghost predicate Carried(t: Topology, n: Net, id: nat) {
    exists c :: (c in n.flight || c in n.dropped || c in n.received) && c.frame.id == id && OnItsWay(t, n, c)
  }

  /** Of the copies a forward makes of a copy on its way, one is on its way. */
  lemma ForwardStaysOnItsWay(t: Topology, n: Net, s: SwitchId, c: Copy) returns (p: nat)
    requires LoopFree(t) && TablesCorrect(t, n) && CopyCorrect(t, n, c) && c.at == InSwitch(s)
    requires c.frame.dst in t.attach && OnItsWay(t, n, c)
    ensures p == t.toward(s, c.frame.dst) && p in Interfaces(t, n, s, c.frame) && HasPort(t, s, p)
    ensures OnItsWay(t, n, Copy(c.frame, FarEnd(t, s, p), c.hops + 1))
  {
    var f := c.frame;
    p := t.toward(s, f.dst);
    assert EntryCorrect(t, n, s, f.src);
    if Knows(n, s, f.dst) {
      assert EntryCorrect(t, n, s, f.dst);
    } else {
      FloodPortsAreAllButOne(|t.ports[s]|, Lookup(n.tables[s], f.src));
    }
    if t.ports[s][p].Trunk? {
      assert TrunkGoesBack(t.ports, s, p);
      assert CrossingLaw(t, s, f.src, p) && CrossingLaw(t, s, f.dst, p);
      assert CrossingLaw(t, t.ports[s][p].sw, f.dst, t.ports[s][p].port);
    }
  }

  lemma OneOutStaysOnItsWay(t: Topology, n: Net, s: SwitchId, c: Copy) returns (o: Copy)
    requires LoopFree(t) && TablesCorrect(t, n) && CopyCorrect(t, n, c) && c.at == InSwitch(s)
    requires c.frame.dst in t.attach && OnItsWay(t, n, c)
    requires forall p :: p in Interfaces(t, n, s, c.frame) ==> HasPort(t, s, p)
    ensures o in CopiesOut(t, s, Interfaces(t, n, s, c.frame), c) && o.frame == c.frame && OnItsWay(t, n, o)
  {
    var p := ForwardStaysOnItsWay(t, n, s, c);
    var ports := Interfaces(t, n, s, c.frame);
    var q :| 0 <= q < |ports| && ports[q] == p;
    o := CopiesOut(t, s, ports, c)[q];
  }

  /** The copy a step moves leaves a copy that is on its way. */
  lemma MovedStaysOnItsWay(t: Topology, n: Net, m: Move, n': Net, c: Copy) returns (o: Copy)
    requires LoopFree(t) && Correct(t, n) && Enabled(t, n, m) && n' == Next(t, n, m) && Grows(n, n')
    requires !m.Send? && c == n.flight[m.i] && c.frame.dst in t.attach && OnItsWay(t, n, c)
    ensures (o in n'.flight || o in n'.dropped || o in n'.received) && o.frame == c.frame && OnItsWay(t, n', o)
  {
    assert c in n.flight;
    o := c;
    match m
    case Receive(i) => o := n'.flight[i];
    case Forward(i) =>
      o := OneOutStaysOnItsWay(t, n, c.at.s, c);
      assert o in n'.flight;
    case Deliver(i) => assert n'.received[|n.received|] == c;
    case Drop(i) => assert n'.dropped[|n.dropped|] == c;
  }

  lemma CarriedOn(t: Topology, n: Net, m: Move, n': Net, id: nat, c: Copy) returns (o: Copy)
    requires LoopFree(t) && Correct(t, n) && Enabled(t, n, m) && n' == Next(t, n, m) && Grows(n, n')
    requires c in n.flight && c.frame.id == id && c.frame.dst in t.attach && OnItsWay(t, n, c)
    ensures (o in n'.flight || o in n'.dropped || o in n'.received) && o.frame.id == id && OnItsWay(t, n', o)
  {
    var j :| 0 <= j < |n.flight| && n.flight[j] == c;
    if !m.Send? && m.i == j {
      o := MovedStaysOnItsWay(t, n, m, n', c);
    } else {
      o := c;
      OthersStay(n, m, n', t, j);
    }
  }

  lemma StepKeepsCarried(t: Topology, n: Net, m: Move, id: nat)
    requires LoopFree(t) && Correct(t, n) && Enabled(t, n, m)
    requires id < |n.sent| && n.sent[id].dst in t.attach && Carried(t, n, id)
    ensures Carried(t, Next(t, n, m), id)
  {
    var n' := Next(t, n, m);
    assert Step(t, n, n');
    StepKeepsCorrect(t, n, n');
    var c :| (c in n.flight || c in n.dropped || c in n.received) && c.frame.id == id && OnItsWay(t, n, c);
    if c in n.flight {
      assert CopyCorrect(t, n, c);
      var o := CarriedOn(t, n, m, n', id, c);
    } else {
      assert OnItsWay(t, n', c);
    }
  }

  lemma OthersStay(n: Net, m: Move, n': Net, t: Topology, j: nat)
    requires Enabled(t, n, m) && n' == Next(t, n, m) && j < |n.flight| && (m.Send? || m.i != j)
    ensures n.flight[j] in n'.flight
  {
    if m.Send? || m.Receive? {
      assert n'.flight[j] == n.flight[j];
    } else if j < m.i {
      assert n'.flight[j] == n.flight[j];
    } else {
      assert n'.flight[j - 1] == n.flight[j];
    }
  }

  lemma {:induction false} UnicastIsCarried(t: Topology, run: seq<Net>, k: nat, id: nat)
    requires LoopFree(t) && IsRun(t, run) && k < |run| && id < |run[k].sent| && run[k].sent[id].dst in t.attach
    ensures Carried(t, run[k], id)
  {
    if k > 0 {
      NetworkStaysCorrect(t, run, k - 1);
      assert Step(t, run[k - 1], run[k - 1 + 1]);
      if id < |run[k - 1].sent| {
        SentFramesStay(t, run, k - 1, id);
        UnicastIsCarried(t, run, k - 1, id);
      }
      NextCarries(t, run[k - 1], run[k], id);
    }
  }

  lemma NextCarries(t: Topology, n: Net, n': Net, id: nat)
    requires LoopFree(t) && Correct(t, n) && Step(t, n, n') && id < |n'.sent| && n'.sent[id].dst in t.attach
    requires id < |n.sent| ==> n.sent[id] == n'.sent[id] && Carried(t, n, id)
    ensures Carried(t, n', id)
  {
    var m :| Enabled(t, n, m) && n' == Next(t, n, m);
    if id < |n.sent| {
      StepKeepsCarried(t, n, m, id);
    } else {
      var c := n'.flight[|n.flight|];
      StationAcross(t, c.at.s, c.at.port);
      assert m.dst != m.h ==> m.dst !in {m.h};
      assert c in n'.flight && OnItsWay(t, n', c);
    }
  }

  /** A frame for a station arrives there: when no copy is left and none was dropped, the station it is
      addressed to has processed it at least once. */
  lemma UnicastReachesItsStation(t: Topology, run: seq<Net>, k: nat, id: nat)
    requires LoopFree(t) && IsRun(t, run) && k < |run| && id < |run[k].sent| && run[k].sent[id].dst in t.attach
    requires NoneLeft(id, run[k].flight) && NoneLeft(id, run[k].dropped)
    ensures Processed(id, run[k].received, run[k].sent[id].dst) >= 1
  {
    UnicastIsCarried(t, run, k, id);
    NetworkStaysCorrect(t, run, k);
    var n := run[k];
    var c :| (c in n.flight || c in n.dropped || c in n.received) && c.frame.id == id && OnItsWay(t, n, c);
    ReceivedIsProcessed(id, run[k].received, c);
  }

  lemma {:induction false} ReceivedIsProcessed(id: nat, received: seq<Copy>, c: Copy)
    requires c in received && c.frame.id == id && c.at == ToStation(c.frame.dst)
    ensures Processed(id, received, c.frame.dst) >= 1
  {
    if received[0] != c {
      ReceivedIsProcessed(id, received[1..], c);
    }
  }
}
