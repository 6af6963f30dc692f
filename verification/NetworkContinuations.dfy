/** Ways to go on from a reachable state: one frame is moved, all else stays where it is. */
module NetworkContinuations {
  import opened Addressing
  import opened Frames
  import opened SwitchTable
  import opened Wiring
  import opened Network
  import opened NetworkDelivery

  function Last(run: seq<Net>): Net
    requires run != []
  {
    run[|run| - 1]
  }

  /** `d` counted among the copies in flight. */
  function InFlight(n: Net, d: Copy): nat {
    multiset(n.flight)[d]
  }

  /** Every other copy stays in flight, and `out` is there for `c`. */
  ghost predicate Replaces(n: Net, n': Net, c: Copy, out: Copy) {
    forall d :: InFlight(n', d) >= InFlight(n, d) - (if d == c then 1 else 0) + if d == out then 1 else 0
  }

  ghost predicate Spends(n: Net, n': Net, c: Copy) {
    forall d :: InFlight(n', d) >= InFlight(n, d) - if d == c then 1 else 0
  }

  /** Nothing is received or dropped, and switches learn no address but `src`. */
  ghost predicate LearnsOnly(n: Net, n': Net, src: Mac) {
    && n'.sent == n.sent && n'.received == n.received && n'.dropped == n.dropped
    && forall s, m :: Knows(n', s, m) ==> Knows(n, s, m) || m == src
  }

  lemma WithoutSpends(cs: seq<Copy>, i: nat)
    requires i < |cs|
    ensures multiset(Without(cs, i)) == multiset(cs) - multiset{cs[i]}
  {
    assert cs == cs[..i] + [cs[i]] + cs[i + 1..];
  }

  lemma GoOn(t: Topology, run: seq<Net>, m: Move, n: Net, n': Net) returns (longer: seq<Net>)
    requires LoopFree(t) && IsRun(t, run) && n == Last(run) && Enabled(t, n, m) && n' == Next(t, n, m)
    ensures IsRun(t, longer) && run <= longer && longer == run + [n'] && Last(longer) == n' && Grows(n, n')
  {
    longer := run + [n'];
    assert Step(t, n, n');
    NextGrows(t, longer, |run| - 1, n, n');
  }

  lemma ReachedIsCorrect(t: Topology, run: seq<Net>, n: Net)
    requires LoopFree(t) && IsRun(t, run) && n == Last(run)
    ensures Correct(t, n)
  {
    NetworkStaysCorrect(t, run, |run| - 1);
  }

  lemma ReceiveReplaces(t: Topology, n: Net, i: nat, n': Net, c: Copy)
    requires Enabled(t, n, Receive(i)) && n' == Next(t, n, Receive(i)) && c == n.flight[i]
    ensures var inside := c.(at := InSwitch(c.at.s)); Replaces(n, n', c, inside) && inside in n'.flight
  {
    var inside := c.(at := InSwitch(c.at.s));
    assert n'.flight[i] == inside;
    assert multiset(n'.flight) == multiset(n.flight) - multiset{c} + multiset{inside};
  }

  lemma ReceiveLearnsOnly(t: Topology, n: Net, i: nat, n': Net, c: Copy)
    requires Enabled(t, n, Receive(i)) && n' == Next(t, n, Receive(i))
    requires c == n.flight[i] && c.frame.src != BROADCAST_MAC
    ensures LearnsOnly(n, n', c.frame.src) && Knows(n', c.at.s, c.frame.src)
  {
    LearnRefinesMap(n.tables[c.at.s], c.frame.src, c.at.port);
  }

  /** The switch a copy arrives at takes it in. */
  lemma TakeIn(t: Topology, run: seq<Net>, c: Copy) returns (longer: seq<Net>, inside: Copy)
    requires LoopFree(t) && IsRun(t, run) && c in Last(run).flight && c.at.OnWire?
    ensures IsRun(t, longer) && run <= longer
    ensures inside == c.(at := InSwitch(c.at.s)) && inside in Last(longer).flight
    ensures Replaces(Last(run), Last(longer), c, inside) && LearnsOnly(Last(run), Last(longer), c.frame.src)
    ensures Grows(Last(run), Last(longer)) && Knows(Last(longer), c.at.s, c.frame.src)
  {
    var n := Last(run);
    var i :| 0 <= i < |n.flight| && n.flight[i] == c;
    ReachedIsCorrect(t, run, n);
    assert CopyCorrect(t, n, c);
    var n' := Next(t, n, Receive(i));
    longer := GoOn(t, run, Receive(i), n, n');
    inside := c.(at := InSwitch(c.at.s));
    ReceiveReplaces(t, n, i, n', c);
    ReceiveLearnsOnly(t, n, i, n', c);
  }

  lemma OutIsAmong(t: Topology, s: SwitchId, ports: seq<nat>, c: Copy, q: nat)
    requires q in ports && forall p :: p in ports ==> HasPort(t, s, p)
    ensures Copy(c.frame, FarEnd(t, s, q), c.hops + 1) in CopiesOut(t, s, ports, c)
  {
    var l :| 0 <= l < |ports| && ports[l] == q;
    assert CopiesOut(t, s, ports, c)[l] in CopiesOut(t, s, ports, c);
  }

  lemma ReplacedInFlight(cs: seq<Copy>, i: nat, outs: seq<Copy>, out: Copy, d: Copy)
    requires i < |cs| && out in outs
    ensures multiset(Without(cs, i) + outs)[d]
            >= multiset(cs)[d] - (if d == cs[i] then 1 else 0) + if d == out then 1 else 0
  {
    WithoutSpends(cs, i);
  }

  lemma ForwardReplaces(t: Topology, n: Net, i: nat, n': Net, c: Copy, ports: seq<nat>, q: nat)
    requires Enabled(t, n, Forward(i)) && n' == Next(t, n, Forward(i)) && c == n.flight[i]
    requires ports == Interfaces(t, n, c.at.s, c.frame) && q in ports
    ensures var out := Copy(c.frame, FarEnd(t, c.at.s, q), c.hops + 1); Replaces(n, n', c, out) && out in n'.flight
  {
    var out := Copy(c.frame, FarEnd(t, c.at.s, q), c.hops + 1);
    OutIsAmong(t, c.at.s, ports, c, q);
    forall d
      ensures InFlight(n', d) >= InFlight(n, d) - (if d == c then 1 else 0) + if d == out then 1 else 0
    {
      ReplacedInFlight(n.flight, i, CopiesOut(t, c.at.s, ports, c), out, d);
    }
  }

  /** A switch sends a copy on, and so to every interface its table and the flooding rule name. */
  lemma SendOut(t: Topology, run: seq<Net>, c: Copy, p: nat) returns (longer: seq<Net>, out: Copy)
    requires LoopFree(t) && IsRun(t, run) && c in Last(run).flight && c.at.InSwitch?
    requires c.at.s in Last(run).tables && c.at.s in t.ports
    requires p in Interfaces(t, Last(run), c.at.s, c.frame)
    ensures IsRun(t, longer) && run <= longer
    ensures HasPort(t, c.at.s, p) && out == Copy(c.frame, FarEnd(t, c.at.s, p), c.hops + 1)
    ensures out in Last(longer).flight
    ensures Replaces(Last(run), Last(longer), c, out) && LearnsOnly(Last(run), Last(longer), c.frame.src)
    ensures forall q :: q in Interfaces(t, Last(run), c.at.s, c.frame) ==>
              HasPort(t, c.at.s, q) && Copy(c.frame, FarEnd(t, c.at.s, q), c.hops + 1) in Last(longer).flight
  {
    var n := Last(run);
    var i :| 0 <= i < |n.flight| && n.flight[i] == c;
    ForwardNeverFails(t, run, |run| - 1, i);
    var n' := Next(t, n, Forward(i));
    longer := GoOn(t, run, Forward(i), n, n');
    var ports := Interfaces(t, n, c.at.s, c.frame);
    out := Copy(c.frame, FarEnd(t, c.at.s, p), c.hops + 1);
    forall q | q in ports
      ensures Copy(c.frame, FarEnd(t, c.at.s, q), c.hops + 1) in n'.flight
    {
      ForwardReplaces(t, n, i, n', c, ports, q);
    }
    ForwardReplaces(t, n, i, n', c, ports, p);
  }

  lemma SpendsThen(n: Net, n1: Net, n2: Net, c: Copy, out: Copy)
    requires Replaces(n, n1, c, out)
    ensures Spends(n1, n2, out) ==> Spends(n, n2, c)
    ensures forall last :: Replaces(n1, n2, out, last) ==> Replaces(n, n2, c, last)
  {
    forall d
      ensures InFlight(n1, d) >= InFlight(n, d) - (if d == c then 1 else 0) + if d == out then 1 else 0
    {
    }
  }

  lemma LearnsThen(n: Net, n1: Net, n2: Net, src: Mac)
    requires LearnsOnly(n, n1, src) && LearnsOnly(n1, n2, src)
    ensures LearnsOnly(n, n2, src)
  {
  }

  /** What a copy that arrives at `s` does next: the interface of its destination, if that is known or the
      source itself, and else all but that of the source. */
  ghost predicate WillCross(t: Topology, n: Net, s: SwitchId, f: Frame, q: nat) {
    && HasPort(t, s, q)
    && if Knows(n, s, f.dst) || f.dst == f.src then q == t.toward(s, f.dst) else q != t.toward(s, f.src)
  }

  lemma CrossedNext(t: Topology, n: Net, s: SwitchId, f: Frame, q: nat)
    requires LoopFree(t) && TablesCorrect(t, n) && Knows(n, s, f.src) && WillCross(t, n, s, f, q)
    ensures q in Interfaces(t, n, s, f)
  {
    assert EntryCorrect(t, n, s, f.src);
    if Knows(n, s, f.dst) {
      assert EntryCorrect(t, n, s, f.dst);
    } else {
      FloodPortsAreAllButOne(|t.ports[s]|, t.toward(s, f.src));
    }
  }

  lemma CrossedAfterReceipt(t: Topology, n: Net, n': Net, s: SwitchId, f: Frame, q: nat)
    requires LoopFree(t) && TablesCorrect(t, n') && WillCross(t, n, s, f, q)
    requires Grows(n, n') && LearnsOnly(n, n', f.src) && Knows(n', s, f.src)
    ensures q in Interfaces(t, n', s, f)
  {
    assert Knows(n', s, f.dst) ==> Knows(n, s, f.dst) || f.dst == f.src;
    CrossedNext(t, n', s, f, q);
  }

  /** One switch further, across `q`. */
  lemma Hop(t: Topology, run: seq<Net>, c: Copy, q: nat) returns (longer: seq<Net>, out: Copy)
    requires LoopFree(t) && IsRun(t, run) && c in Last(run).flight && c.at.OnWire?
    requires WillCross(t, Last(run), c.at.s, c.frame, q)
    ensures IsRun(t, longer) && run <= longer
    ensures HasPort(t, c.at.s, q) && out == Copy(c.frame, FarEnd(t, c.at.s, q), c.hops + 1)
    ensures out in Last(longer).flight
    ensures Replaces(Last(run), Last(longer), c, out) && LearnsOnly(Last(run), Last(longer), c.frame.src)
    ensures forall q' :: WillCross(t, Last(run), c.at.s, c.frame, q') ==>
              Copy(c.frame, FarEnd(t, c.at.s, q'), c.hops + 1) in Last(longer).flight
  {
    var taken, inside := TakeIn(t, run, c);
    var n, n1 := Last(run), Last(taken);
    ReachedIsCorrect(t, taken, n1);
    forall q' | WillCross(t, n, c.at.s, c.frame, q')
      ensures q' in Interfaces(t, n1, c.at.s, c.frame)
    {
      CrossedAfterReceipt(t, n, n1, c.at.s, c.frame, q');
    }
    longer, out := SendOut(t, taken, inside, q);
    SpendsThen(n, n1, Last(longer), c, inside);
    LearnsThen(n, n1, Last(longer), c.frame.src);
  }

  /** Crossing from `s` toward a station and back: the interface back leads away from it. */
  lemma WayBack(t: Topology, s: SwitchId, h: Mac) returns (s': SwitchId, p': nat)
    requires LoopFree(t) && s in t.ports && h in t.attach && s != t.attach[h].0
    ensures t.ports[s][t.toward(s, h)] == Trunk(s', p')
    ensures HasPort(t, s', p') && t.ports[s'][p'] == Trunk(s, t.toward(s, h))
    ensures t.dist(s', h) + 1 == t.dist(s, h) && p' != t.toward(s', h)
    ensures forall o :: o in t.attach && t.toward(s, o) != t.toward(s, h) ==> t.toward(s', o) == p'
  {
    var p := t.toward(s, h);
    var Trunk(r, q) := t.ports[s][p];
    s', p' := r, q;
    assert TrunkGoesBack(t.ports, s, p) && CrossingLaw(t, s, h, p) && CrossingLaw(t, s', h, p');
    forall o | o in t.attach && t.toward(s, o) != p
      ensures t.toward(s', o) == p'
    {
      assert CrossingLaw(t, s, o, p);
    }
  }

  /** `s` lies between the stations: the ways to them part there. */
  predicate Between(t: Topology, s: SwitchId, a: Mac, b: Mac) {
    s in t.ports && a in t.attach && b in t.attach && t.toward(s, a) != t.toward(s, b)
  }

  /** A frame for a station passes every switch on its way, and a frame for no station every switch. */
  predicate Passes(t: Topology, s: SwitchId, f: Frame) {
    s in t.ports && f.src in t.attach && f.dst != f.src && (f.dst in t.attach ==> Between(t, s, f.src, f.dst))
  }

  /** The copy just sent can be brought to any switch that the frame passes. */
  lemma {:induction false} Bring(t: Topology, run: seq<Net>, sent: Copy, s: SwitchId)
    returns (longer: seq<Net>, c: Copy)
    requires LoopFree(t) && IsRun(t, run) && sent in Last(run).flight && Passes(t, s, sent.frame)
    requires sent.at.OnWire? && sent.at.s == t.attach[sent.frame.src].0
    ensures IsRun(t, longer) && run <= longer
    ensures c.frame == sent.frame && c.at.OnWire? && c.at.s == s && c in Last(longer).flight
    ensures Replaces(Last(run), Last(longer), sent, c) && LearnsOnly(Last(run), Last(longer), sent.frame.src)
    decreases t.dist(s, sent.frame.src)
  {
    var f := sent.frame;
    if s == t.attach[f.src].0 {
      longer, c := run, sent;
    } else {
      var s', p' := WayBack(t, s, f.src);
      assert f.dst in t.attach ==> t.toward(s', f.dst) == p';
      var near, before := Bring(t, run, sent, s');
      if f.dst !in t.attach {
        ReachedIsCorrect(t, near, Last(near));
        UnownedIsUnknown(t, Last(near), s', f.dst);
      }
      longer, c := Hop(t, near, before, p');
      SpendsThen(Last(run), Last(near), Last(longer), sent, before);
      LearnsThen(Last(run), Last(near), Last(longer), f.src);
    }
  }

  /** One more copy of the frame has reached its station, and nothing else has been received or dropped. */
  ghost predicate Arrives(n: Net, n': Net, f: Frame) {
    && n'.sent == n.sent && n'.dropped == n.dropped
    && (exists hops :: n'.received == n.received + [Copy(f, ToStation(f.dst), hops)])
    && forall s, m :: Knows(n', s, m) ==> Knows(n, s, m) || m == f.src
  }

  lemma ArrivesAfter(n: Net, n1: Net, n2: Net, f: Frame)
    requires LearnsOnly(n, n1, f.src) && Arrives(n1, n2, f)
    ensures Arrives(n, n2, f)
  {
  }

  lemma Arrival(t: Topology, run: seq<Net>, c: Copy) returns (longer: seq<Net>)
    requires LoopFree(t) && IsRun(t, run) && c in Last(run).flight && c.at == ToStation(c.frame.dst)
    ensures IsRun(t, longer) && run <= longer
    ensures Spends(Last(run), Last(longer), c) && Arrives(Last(run), Last(longer), c.frame)
  {
    var n := Last(run);
    var i :| 0 <= i < |n.flight| && n.flight[i] == c;
    var n' := Next(t, n, Deliver(i));
    longer := GoOn(t, run, Deliver(i), n, n');
    WithoutSpends(n.flight, i);
    assert n'.received == n.received + [Copy(c.frame, ToStation(c.frame.dst), c.hops)];
  }

  /** A copy that is on its way can be brought to its station. */
  lemma {:induction false} Home(t: Topology, run: seq<Net>, c: Copy) returns (longer: seq<Net>)
    requires LoopFree(t) && IsRun(t, run) && c in Last(run).flight
    requires c.frame.dst in t.attach && c.frame.src != c.frame.dst
    requires match c.at
             case ToStation(h) => h == c.frame.dst
             case OnWire(s, _) => Between(t, s, c.frame.src, c.frame.dst)
             case InSwitch(_) => false
    ensures IsRun(t, longer) && run <= longer
    ensures Spends(Last(run), Last(longer), c) && Arrives(Last(run), Last(longer), c.frame)
    decreases if c.at.ToStation? then 0 else t.dist(c.at.s, c.frame.dst) + 1
  {
    if c.at.ToStation? {
      longer := Arrival(t, run, c);
    } else {
      var s, f := c.at.s, c.frame;
      var p := t.toward(s, f.dst);
      var hopped, out := Hop(t, run, c, p);
      if s != t.attach[f.dst].0 {
        var s', p' := WayBack(t, s, f.dst);
        assert t.toward(s', f.src) == p';
      }
      longer := Home(t, hopped, out);
      SpendsThen(Last(run), Last(hopped), Last(longer), c, out);
      ArrivesAfter(Last(run), Last(hopped), Last(longer), f);
    }
  }
}
