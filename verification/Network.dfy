/** Learning switches plugged into each other and into stations, as a step machine. Each receive, send
    and drop is one step; copies in flight have no order, and any of them may be dropped at any time. */
module Network {
  import opened Addressing
  import opened Bytes
  import opened Frames
  import opened SwitchTable
  import opened Wiring

  /** On the wire into interface `port` of a switch, in a switch's queue, or on the wire to a station. */
  datatype Location = OnWire(s: SwitchId, port: nat) | InSwitch(s: SwitchId) | ToStation(h: Mac)

  /** `hops` counts the links crossed so far; nothing in the network reads it. */
  datatype Copy = Copy(frame: Frame, at: Location, hops: nat)

  datatype Net = Net(
    tables: map<SwitchId, Table>,
    flight: seq<Copy>,
    dropped: seq<Copy>,
    received: seq<Copy>,
    sent: seq<Frame>)

  datatype Move =
    | Send(h: Mac, dst: Mac, payload: seq<byte>)
    | Receive(i: nat)
    | Forward(i: nat)
    | Deliver(i: nat)
    | Drop(i: nat)

  function Start(t: Topology): Net {
    Net(map s | s in t.ports :: [], [], [], [], [])
  }

  function Without<T>(s: seq<T>, i: nat): seq<T>
    requires i < |s|
  {
    s[..i] + s[i + 1..]
  }

  predicate HasPort(t: Topology, s: SwitchId, p: nat) {
    s in t.ports && p < |t.ports[s]|
  }

  /** Where a transmission on interface `p` of `s` is next. */
  function FarEnd(t: Topology, s: SwitchId, p: nat): Location
    requires HasPort(t, s, p)
  {
    match t.ports[s][p]
    case Station(h) => ToStation(h)
    case Trunk(s', p') => OnWire(s', p')
  }

  function Interfaces(t: Topology, n: Net, s: SwitchId, f: Frame): seq<nat>
    requires s in n.tables && s in t.ports
  {
    OutPorts(n.tables[s], |t.ports[s]|, f)
  }

  function CopiesOut(t: Topology, s: SwitchId, ports: seq<nat>, c: Copy): (out: seq<Copy>)
    requires forall p :: p in ports ==> HasPort(t, s, p)
    ensures |out| == |ports|
    ensures forall k :: 0 <= k < |out| ==> out[k] == Copy(c.frame, FarEnd(t, s, ports[k]), c.hops + 1)
  {
    if ports == [] then []
    else [Copy(c.frame, FarEnd(t, s, ports[0]), c.hops + 1)] + CopiesOut(t, s, ports[1..], c)
  }

  predicate Enabled(t: Topology, n: Net, m: Move) {
    match m
    case Send(h, _, _) => h in t.attach && HasPort(t, t.attach[h].0, t.attach[h].1)
    case Receive(i) => i < |n.flight| && n.flight[i].at.OnWire? && n.flight[i].at.s in n.tables
    case Forward(i) =>
      && i < |n.flight| && n.flight[i].at.InSwitch?
      && n.flight[i].at.s in n.tables && n.flight[i].at.s in t.ports
      && forall p :: p in Interfaces(t, n, n.flight[i].at.s, n.flight[i].frame) ==> HasPort(t, n.flight[i].at.s, p)
    case Deliver(i) => i < |n.flight| && n.flight[i].at.ToStation?
    case Drop(i) => i < |n.flight|
  }

  function Next(t: Topology, n: Net, m: Move): Net
    requires Enabled(t, n, m)
  {
    match m
    case Send(h, dst, payload) =>
      var f := Frame(|n.sent|, h, dst, payload);
      var (s, p) := t.attach[h];
      n.(sent := n.sent + [f], flight := n.flight + [Copy(f, OnWire(s, p), 1)])
    case Receive(i) =>
      var c := n.flight[i];
      n.(tables := n.tables[c.at.s := Learn(n.tables[c.at.s], c.frame.src, c.at.port)],
         flight := n.flight[i := c.(at := InSwitch(c.at.s))])
    case Forward(i) =>
      var c := n.flight[i];
      n.(flight := Without(n.flight, i) + CopiesOut(t, c.at.s, Interfaces(t, n, c.at.s, c.frame), c))
    case Deliver(i) =>
      n.(flight := Without(n.flight, i), received := n.received + [n.flight[i]])
    case Drop(i) =>
      n.(flight := Without(n.flight, i), dropped := n.dropped + [n.flight[i]])
  }

  ghost predicate Step(t: Topology, n: Net, n': Net) {
    exists m :: Enabled(t, n, m) && n' == Next(t, n, m)
  }

  ghost predicate IsRun(t: Topology, run: seq<Net>) {
    && |run| > 0 && run[0] == Start(t)
    && forall i :: 0 <= i < |run| - 1 ==> Step(t, run[i], run[i + 1])
  }

  predicate Knows(n: Net, s: SwitchId, m: Mac) {
    s in n.tables && m in View(n.tables[s])
  }

  /** Every entry names the interface leading to the owner, and the next switch that way knows it too. */
  ghost predicate EntryCorrect(t: Topology, n: Net, s: SwitchId, m: Mac)
    requires Knows(n, s, m)
  {
    && s in t.ports && m in t.attach && View(n.tables[s])[m] == t.toward(s, m)
    && (HasPort(t, s, t.toward(s, m)) && t.ports[s][t.toward(s, m)].Trunk? ==>
        Knows(n, t.ports[s][t.toward(s, m)].sw, m))
  }

  ghost predicate TablesCorrect(t: Topology, n: Net) {
    && n.tables.Keys == t.ports.Keys
    && (forall s :: s in n.tables ==> WellFormed(n.tables[s]))
    && forall s, m :: Knows(n, s, m) ==> EntryCorrect(t, n, s, m)
  }

  /** A copy's frame is one that was sent; the switch it left knows its source; and where it now is,
      the source is known or lies behind the interface it arrives on. */
  ghost predicate CopyCorrect(t: Topology, n: Net, c: Copy) {
    && c.frame.id < |n.sent| && n.sent[c.frame.id] == c.frame && c.frame.src in t.attach
    && match c.at
       case OnWire(s, p) =>
         && HasPort(t, s, p)
         && (t.ports[s][p].Trunk? ==> Knows(n, t.ports[s][p].sw, c.frame.src))
         && (Knows(n, s, c.frame.src) || p == t.toward(s, c.frame.src))
       case InSwitch(s) => s in t.ports && Knows(n, s, c.frame.src)
       case ToStation(h) => h in t.attach
  }

  ghost predicate CopiesCorrect(t: Topology, n: Net, cs: seq<Copy>) {
    forall c :: c in cs ==> CopyCorrect(t, n, c)
  }

  ghost predicate Correct(t: Topology, n: Net) {
    && TablesCorrect(t, n)
    && CopiesCorrect(t, n, n.flight) && CopiesCorrect(t, n, n.received) && CopiesCorrect(t, n, n.dropped)
    && (forall c :: c in n.received ==> c.at.ToStation?)
    && (forall i :: 0 <= i < |n.sent| ==> n.sent[i].id == i && n.sent[i].src in t.attach)
  }

  /** Nothing known is forgotten or rebound, and frames sent stay sent. */
  ghost predicate Grows(n: Net, n': Net) {
    && n.tables.Keys == n'.tables.Keys
    && (forall s, m :: Knows(n, s, m) ==> Knows(n', s, m) && View(n'.tables[s])[m] == View(n.tables[s])[m])
    && n.sent <= n'.sent
  }

  lemma GrowthKeepsCopyCorrect(t: Topology, n: Net, n': Net, c: Copy)
    requires CopyCorrect(t, n, c) && Grows(n, n')
    ensures CopyCorrect(t, n', c)
  {
  }

  lemma ReceiveKeepsTables(t: Topology, n: Net, i: nat)
    requires LoopFree(t) && Correct(t, n) && Enabled(t, n, Receive(i))
    ensures var n' := Next(t, n, Receive(i));
            TablesCorrect(t, n') && Grows(n, n') && Knows(n', n.flight[i].at.s, n.flight[i].frame.src)
  {
    var n', c := Next(t, n, Receive(i)), n.flight[i];
    var s, src := c.at.s, c.frame.src;
    assert CopyCorrect(t, n, c);
    LearnRefinesMap(n.tables[s], src, c.at.port);
    LearnKeepsWellFormedIff(n.tables[s], src, c.at.port);
    forall r, m | Knows(n', r, m)
      ensures EntryCorrect(t, n', r, m)
    {
      if Knows(n, r, m) {
        assert EntryCorrect(t, n, r, m);
      }
    }
  }

  /** Crossing any interface of a switch that knows the source keeps the copy correct. */
  lemma CopyOutCorrect(t: Topology, n: Net, s: SwitchId, p: nat, c: Copy)
    requires LoopFree(t) && TablesCorrect(t, n) && CopyCorrect(t, n, c) && c.at == InSwitch(s) && HasPort(t, s, p)
    ensures CopyCorrect(t, n, Copy(c.frame, FarEnd(t, s, p), c.hops + 1))
  {
    if t.ports[s][p].Trunk? {
      assert TrunkGoesBack(t.ports, s, p) && CrossingLaw(t, s, c.frame.src, p);
      assert EntryCorrect(t, n, s, c.frame.src);
    }
  }

  lemma InterfacesExist(t: Topology, n: Net, s: SwitchId, f: Frame)
    requires LoopFree(t) && TablesCorrect(t, n) && s in t.ports && Knows(n, s, f.src)
    ensures forall p :: p in Interfaces(t, n, s, f) ==> HasPort(t, s, p)
  {
    if Lookup(n.tables[s], f.dst) != -1 {
      assert Knows(n, s, f.dst) && EntryCorrect(t, n, s, f.dst);
    } else {
      FloodPortsAreAllButOne(|t.ports[s]|, Lookup(n.tables[s], f.src));
    }
  }

  lemma SameTables(t: Topology, n: Net, n': Net)
    requires TablesCorrect(t, n) && n'.tables == n.tables && n.sent <= n'.sent
    ensures TablesCorrect(t, n') && Grows(n, n')
  {
    forall s, m | Knows(n', s, m)
      ensures EntryCorrect(t, n', s, m)
    {
      assert Knows(n, s, m) && EntryCorrect(t, n, s, m);
    }
  }

  lemma WithoutIsPart<T>(s: seq<T>, i: nat)
    requires i < |s|
    ensures forall x :: x in Without(s, i) ==> x in s
    ensures s[i] in s
  {
  }

  lemma CopiesOutCorrect(t: Topology, n: Net, s: SwitchId, ports: seq<nat>, c: Copy)
    requires LoopFree(t) && TablesCorrect(t, n) && CopyCorrect(t, n, c) && c.at == InSwitch(s)
    requires forall p :: p in ports ==> HasPort(t, s, p)
    ensures CopiesCorrect(t, n, CopiesOut(t, s, ports, c))
  {
    var out := CopiesOut(t, s, ports, c);
    forall o | o in out
      ensures CopyCorrect(t, n, o)
    {
      var k :| 0 <= k < |out| && out[k] == o;
      CopyOutCorrect(t, n, s, ports[k], c);
    }
  }

  lemma ReceivedIsCorrect(t: Topology, n: Net, n': Net, i: nat)
    requires Enabled(t, n, Receive(i)) && n'.flight == n.flight[i := n.flight[i].(at := InSwitch(n.flight[i].at.s))]
    requires CopiesCorrect(t, n', n.flight) && Knows(n', n.flight[i].at.s, n.flight[i].frame.src)
    ensures CopiesCorrect(t, n', n'.flight)
  {
    assert n.flight[i] in n.flight;
  }

  /** The copies in flight after a step, seen with the tables and the log after it. */
  lemma FlightStaysCorrect(t: Topology, n: Net, m: Move)
    requires LoopFree(t) && Correct(t, n) && Enabled(t, n, m)
    requires TablesCorrect(t, Next(t, n, m)) && Grows(n, Next(t, n, m))
    requires m.Receive? ==> Knows(Next(t, n, m), n.flight[m.i].at.s, n.flight[m.i].frame.src)
    ensures CopiesCorrect(t, Next(t, n, m), Next(t, n, m).flight)
  {
    var n' := Next(t, n, m);
    forall c | c in n.flight
      ensures CopyCorrect(t, n', c)
    {
      GrowthKeepsCopyCorrect(t, n, n', c);
    }
    match m
    case Send(h, dst, payload) =>
    case Receive(i) => ReceivedIsCorrect(t, n, n', i);
    case Forward(i) =>
      WithoutIsPart(n.flight, i);
      var c := n.flight[i];
      CopiesOutCorrect(t, n', c.at.s, Interfaces(t, n, c.at.s, c.frame), c);
    case Deliver(i) => WithoutIsPart(n.flight, i);
    case Drop(i) => WithoutIsPart(n.flight, i);
  }

  lemma StepKeepsCorrect(t: Topology, n: Net, n': Net)
    requires LoopFree(t) && Correct(t, n) && Step(t, n, n')
    ensures Correct(t, n') && Grows(n, n')
  {
    var m :| Enabled(t, n, m) && n' == Next(t, n, m);
    if m.Receive? {
      ReceiveKeepsTables(t, n, m.i);
    } else {
      SameTables(t, n, n');
    }
    FlightStaysCorrect(t, n, m);
    forall c | CopyCorrect(t, n, c)
      ensures CopyCorrect(t, n', c)
    {
      GrowthKeepsCopyCorrect(t, n, n', c);
    }
    assert m.Deliver? || m.Drop? ==> n.flight[m.i] in n.flight;
  }

  /** In every reachable state every table is right, and what a switch knows the next one knows too. */
  lemma {:induction false} NetworkStaysCorrect(t: Topology, run: seq<Net>, k: nat)
    requires LoopFree(t) && IsRun(t, run) && k < |run|
    ensures Correct(t, run[k])
  {
    if k > 0 {
      NetworkStaysCorrect(t, run, k - 1);
      assert Step(t, run[k - 1], run[k - 1 + 1]);
      StepKeepsCorrect(t, run[k - 1], run[k]);
    }
  }

  lemma GrowthAddsUp(n: Net, n': Net, n'': Net)
    requires Grows(n, n') && Grows(n', n'')
    ensures Grows(n, n'')
  {
    forall s, m | Knows(n, s, m)
      ensures Knows(n'', s, m) && View(n''.tables[s])[m] == View(n.tables[s])[m]
    {
      assert Knows(n', s, m);
    }
  }

  lemma NextGrows(t: Topology, run: seq<Net>, k: nat, n: Net, n': Net)
    requires LoopFree(t) && IsRun(t, run) && k + 1 < |run| && n == run[k] && n' == run[k + 1]
    ensures Grows(n, n')
  {
    NetworkStaysCorrect(t, run, k);
    StepKeepsCorrect(t, n, n');
  }

  /** A binding, once made, is never changed or forgotten. */
  lemma {:induction false} BindingsNeverChange(t: Topology, run: seq<Net>, j: nat, k: nat)
    requires LoopFree(t) && IsRun(t, run) && j <= k < |run|
    ensures Grows(run[j], run[k])
    decreases k
  {
    if j < k {
      BindingsNeverChange(t, run, j, k - 1);
      NextGrows(t, run, k - 1, run[k - 1], run[k]);
      GrowthAddsUp(run[j], run[k - 1], run[k]);
    }
  }

  /** What a switch knows, every switch on the way to the owner knows: following the interface recorded
      at each leads to the owner's switch in `dist` crossings. */
  lemma {:induction false} KnowledgeReachesOwner(t: Topology, n: Net, s: SwitchId, m: Mac) returns (path: seq<SwitchId>)
    requires LoopFree(t) && Correct(t, n) && Knows(n, s, m)
    ensures m in t.attach && |path| == t.dist(s, m) + 1 && path[0] == s && path[|path| - 1] == t.attach[m].0
    ensures forall i :: 0 <= i < |path| ==> Knows(n, path[i], m)
    ensures forall i :: 0 <= i < |path| - 1 ==> LeadsTo(t, path[i], View(n.tables[path[i]])[m], path[i + 1])
    decreases t.dist(s, m)
  {
    assert EntryCorrect(t, n, s, m);
    path := [s];
    if s != t.attach[m].0 {
      var next := NextKnows(t, n, s, m);
      var rest := KnowledgeReachesOwner(t, n, next, m);
      path := [s] + rest;
    }
  }

  lemma NextKnows(t: Topology, n: Net, s: SwitchId, m: Mac) returns (next: SwitchId)
    requires LoopFree(t) && TablesCorrect(t, n) && Knows(n, s, m) && m in t.attach && s != t.attach[m].0
    ensures LeadsTo(t, s, View(n.tables[s])[m], next) && Knows(n, next, m) && t.dist(next, m) + 1 == t.dist(s, m)
  {
    assert EntryCorrect(t, n, s, m);
    var p := t.toward(s, m);
    assert TrunkGoesBack(t.ports, s, p) && CrossingLaw(t, s, m, p);
    next := t.ports[s][p].sw;
  }

  ghost predicate LeadsTo(t: Topology, s: SwitchId, p: nat, s': SwitchId) {
    HasPort(t, s, p) && t.ports[s][p].Trunk? && t.ports[s][p].sw == s'
  }

  /** No queued frame ever names an interface the switch lacks: a queued copy can always be sent. */
  lemma ForwardNeverFails(t: Topology, run: seq<Net>, k: nat, i: nat)
    requires LoopFree(t) && IsRun(t, run) && k < |run| && i < |run[k].flight| && run[k].flight[i].at.InSwitch?
    ensures Enabled(t, run[k], Forward(i))
  {
    NetworkStaysCorrect(t, run, k);
    assert run[k].flight[i] in run[k].flight;
    InterfacesExist(t, run[k], run[k].flight[i].at.s, run[k].flight[i].frame);
  }
}
