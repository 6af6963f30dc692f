/** A frame whose one copy is where every switch ahead knows the destination stays a single copy all the way.
    So does a frame that a station sends to itself. */
module NetworkUnicast {
  import opened Addressing
  import opened SwitchTable
  import opened Wiring
  import opened Network
  import opened NetworkTermination
  import opened NetworkDelivery

  /** How many copies of frame `id` are among `cs`. */
  ghost function Copies(id: nat, cs: seq<Copy>): nat {
    if cs == [] then 0 else (if cs[0].frame.id == id then 1 else 0) + Copies(id, cs[1..])
  }

  /** Every switch from here to the destination knows it, or will when the copy arrives. */
  ghost predicate Homing(n: Net, c: Copy) {
    match c.at
    case ToStation(h) => h == c.frame.dst
    case OnWire(s, _) => Knows(n, s, c.frame.dst) || c.frame.dst == c.frame.src
    case InSwitch(s) => Knows(n, s, c.frame.dst) || c.frame.dst == c.frame.src
  }

  ghost predicate AllHoming(n: Net, id: nat, cs: seq<Copy>) {
    forall c :: c in cs && c.frame.id == id ==> Homing(n, c)
  }

  /** There is one copy of the frame, in flight, dropped or received, and it keeps to its way. */
  ghost predicate IsSingle(n: Net, id: nat) {
    && Copies(id, n.flight) + Copies(id, n.dropped) + Copies(id, n.received) == 1
    && AllHoming(n, id, n.flight) && AllHoming(n, id, n.received)
  }

  lemma {:induction false} CopiesOfParts(id: nat, x: seq<Copy>, y: seq<Copy>)
    ensures Copies(id, x + y) == Copies(id, x) + Copies(id, y)
  {
    if x == [] {
      assert x + y == y;
    } else {
      CopiesOfParts(id, x[1..], y);
      assert (x + y)[1..] == x[1..] + y;
    }
  }

  lemma CopiesWithout(id: nat, cs: seq<Copy>, i: nat)
    requires i < |cs|
    ensures Copies(id, cs) == Copies(id, Without(cs, i)) + if cs[i].frame.id == id then 1 else 0
  {
    CopiesOfParts(id, cs[..i], cs[i + 1..]);
    CopiesOfParts(id, cs[..i], cs[i..]);
    assert cs == cs[..i] + cs[i..] && cs[i..][1..] == cs[i + 1..];
  }

  lemma CopiesWithOneMore(id: nat, cs: seq<Copy>, c: Copy)
    ensures Copies(id, cs + [c]) == Copies(id, cs) + if c.frame.id == id then 1 else 0
  {
    CopiesOfParts(id, cs, [c]);
  }

  lemma CopiesMoved(id: nat, cs: seq<Copy>, i: nat, c: Copy)
    requires i < |cs| && c.frame == cs[i].frame
    ensures Copies(id, cs[i := c]) == Copies(id, cs)
  {
    CopiesWithout(id, cs, i);
    CopiesWithout(id, cs[i := c], i);
    assert Without(cs[i := c], i) == Without(cs, i);
  }

  lemma {:induction false} NoCopies(id: nat, cs: seq<Copy>)
    requires NoneLeft(id, cs)
    ensures Copies(id, cs) == 0
  {
    if cs != [] {
      NoCopies(id, cs[1..]);
    }
  }

  lemma GrowthKeepsHoming(n: Net, n': Net, id: nat, cs: seq<Copy>)
    requires AllHoming(n, id, cs) && Grows(n, n')
    ensures AllHoming(n', id, cs)
  {
  }

  /** A copy sent to a known destination is replaced by one copy, which is still on its way. */
  lemma ForwardedStaysSingle(t: Topology, n: Net, c: Copy, s: SwitchId)
    requires LoopFree(t) && TablesCorrect(t, n) && CopyCorrect(t, n, c) && c.at == InSwitch(s) && Homing(n, c)
    requires forall p :: p in Interfaces(t, n, s, c.frame) ==> HasPort(t, s, p)
    ensures var out := CopiesOut(t, s, Interfaces(t, n, s, c.frame), c);
            |out| == 1 && out[0].frame == c.frame && Homing(n, out[0])
  {
    assert EntryCorrect(t, n, s, c.frame.dst);
    var ports := Interfaces(t, n, s, c.frame);
    assert ports == [Lookup(n.tables[s], c.frame.dst)] && ports[0] in ports;
    ForwardMakesProgress(t, n, s, ports[0], c.frame);
  }

  lemma ForwardKeepsSingle(t: Topology, n: Net, i: nat, n': Net, id: nat)
    requires LoopFree(t) && Correct(t, n) && Enabled(t, n, Forward(i)) && n' == Next(t, n, Forward(i))
    requires IsSingle(n, id)
    ensures Copies(id, n'.flight) == Copies(id, n.flight) && AllHoming(n', id, n'.flight)
  {
    var c := n.flight[i];
    assert c in n.flight;
    var out := CopiesOut(t, c.at.s, Interfaces(t, n, c.at.s, c.frame), c);
    CopiesWithout(id, n.flight, i);
    CopiesOfParts(id, Without(n.flight, i), out);
    WithoutIsPart(n.flight, i);
    if c.frame.id == id {
      ForwardedStaysSingle(t, n, c, c.at.s);
      assert out == [out[0]] && out[1..] == [];
    } else {
      NoCopies(id, out);
    }
  }

  lemma RemovalKeepsSingle(t: Topology, n: Net, m: Move, n': Net, id: nat)
    requires Enabled(t, n, m) && n' == Next(t, n, m) && (m.Deliver? || m.Drop?) && IsSingle(n, id)
    ensures IsSingle(n', id)
  {
    var c := n.flight[m.i];
    assert c in n.flight;
    WithoutIsPart(n.flight, m.i);
    CopiesWithout(id, n.flight, m.i);
    CopiesWithOneMore(id, if m.Deliver? then n.received else n.dropped, c);
  }

  lemma StepKeepsSingle(t: Topology, n: Net, m: Move, n': Net, id: nat)
    requires LoopFree(t) && Correct(t, n) && Enabled(t, n, m) && n' == Next(t, n, m) && Grows(n, n')
    requires id < |n.sent| && IsSingle(n, id)
    ensures IsSingle(n', id)
  {
    GrowthKeepsHoming(n, n', id, n.flight);
    GrowthKeepsHoming(n, n', id, n.received);
    match m
    case Send(_, _, _) =>
      CopiesWithOneMore(id, n.flight, n'.flight[|n.flight|]);
    case Receive(i) =>
      assert n.flight[i] in n.flight;
      CopiesMoved(id, n.flight, i, n'.flight[i]);
    case Forward(i) => ForwardKeepsSingle(t, n, i, n', id);
    case Deliver(_) => RemovalKeepsSingle(t, n, m, n', id);
    case Drop(_) => RemovalKeepsSingle(t, n, m, n', id);
  }

  /** A frame sent while the sender's switch knows the destination starts as a single copy on its way. */
  lemma SentToKnownIsSingle(t: Topology, n: Net, h: Mac, dst: Mac, payload: seq<Bytes.byte>)
    requires Correct(t, n) && Enabled(t, n, Send(h, dst, payload))
    requires Knows(n, t.attach[h].0, dst) || h == dst
    ensures IsSingle(Next(t, n, Send(h, dst, payload)), |n.sent|)
  {
    var n' := Next(t, n, Send(h, dst, payload));
    var id := |n.sent|;
    forall c | c in n.flight || c in n.received || c in n.dropped
      ensures c.frame.id != id
    {
      assert CopyCorrect(t, n, c);
    }
    NoCopies(id, n.flight);
    NoCopies(id, n.received);
    NoCopies(id, n.dropped);
    CopiesWithOneMore(id, n.flight, n'.flight[|n.flight|]);
  }

  lemma NextKeepsSingle(t: Topology, run: seq<Net>, k: nat, n: Net, n': Net, id: nat)
    requires LoopFree(t) && IsRun(t, run) && k + 1 < |run| && n == run[k] && n' == run[k + 1]
    requires id < |n.sent| && IsSingle(n, id)
    ensures id < |n'.sent| && n'.sent[id] == n.sent[id] && IsSingle(n', id)
  {
    NetworkStaysCorrect(t, run, k);
    NextGrows(t, run, k, n, n');
    var m :| Enabled(t, n, m) && n' == Next(t, n, m);
    StepKeepsSingle(t, n, m, n', id);
  }

  lemma {:induction false} SingleStaysSingle(t: Topology, run: seq<Net>, j: nat, k: nat, id: nat)
    requires LoopFree(t) && IsRun(t, run) && j <= k < |run| && id < |run[j].sent| && IsSingle(run[j], id)
    ensures id < |run[k].sent| && run[k].sent[id] == run[j].sent[id] && IsSingle(run[k], id)
    decreases k
  {
    if j < k {
      SingleStaysSingle(t, run, j, k - 1, id);
      NextKeepsSingle(t, run, k - 1, run[k - 1], run[k], id);
    }
  }

  /** Each copy received is processed by the station it homed in on, and by nobody else. */
  lemma {:induction false} ProcessedIsReceived(t: Topology, n: Net, id: nat, received: seq<Copy>, h: Mac)
    requires id < |n.sent| && CopiesCorrect(t, n, received) && AllHoming(n, id, received)
    requires forall c :: c in received ==> c.at.ToStation?
    ensures Processed(id, received, h) == if h == n.sent[id].dst then Copies(id, received) else 0
  {
    if received != [] {
      assert received[0] in received;
      ProcessedIsReceived(t, n, id, received[1..], h);
    }
  }

  /** A frame sent while the sender's switch knows its destination, or to the sender itself, is processed
      there at most once and by nobody else; and exactly once when it is not in flight any more and was not
      dropped. */
  lemma UnicastToKnownArrivesOnce(t: Topology, run: seq<Net>, j: nat, k: nat,
                                  h: Mac, dst: Mac, payload: seq<Bytes.byte>, o: Mac)
    requires LoopFree(t) && IsRun(t, run) && j < k < |run|
    requires Enabled(t, run[j], Send(h, dst, payload)) && run[j + 1] == Next(t, run[j], Send(h, dst, payload))
    requires Knows(run[j], t.attach[h].0, dst) || h == dst
    ensures var id := |run[j].sent|; Processed(id, run[k].received, o) <= if o == dst then 1 else 0
    ensures var id := |run[j].sent|; NoneLeft(id, run[k].flight) && NoneLeft(id, run[k].dropped) ==>
              Processed(id, run[k].received, dst) == 1
  {
    var id, n := |run[j].sent|, run[k];
    NetworkStaysCorrect(t, run, j);
    SentToKnownIsSingle(t, run[j], h, dst, payload);
    SingleStaysSingle(t, run, j + 1, k, id);
    NetworkStaysCorrect(t, run, k);
    ProcessedIsReceived(t, n, id, n.received, o);
    ProcessedIsReceived(t, n, id, n.received, dst);
    if NoneLeft(id, n.flight) && NoneLeft(id, n.dropped) {
      NoCopies(id, n.flight);
      NoCopies(id, n.dropped);
    }
  }
}
