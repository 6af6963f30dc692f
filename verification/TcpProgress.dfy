/** The same endpoints on a path that loses nothing and keeps order: the transfer always completes, in a
    bounded number of steps, sending each segment once. */
module TcpProgress {
  import opened Bytes
  import opened Transport
  import opened TcpSegments
  import opened Multiples
  import opened TcpEndpoints
  import opened TcpTransfer

  /** `log` is every segment the client has sent, in order, and `taken` how many acknowledgements it took.
      The ports are those of the two sockets, and a host gives a socket only what is addressed to its port. */
  datatype Path = Path(
    clientPort: u16,
    serverPort: u16,
    client: ClientState,
    server: ServerState,
    toServer: seq<Tcp>,
    toClient: seq<Tcp>,
    log: seq<Tcp>,
    taken: nat)

  /** The segments go from the client's port to the server's, and the server's SYNACK went the other way. */
  ghost predicate IsStart(segs: seq<Tcp>, p: Path) {
    && ForPorts(segs, p.clientPort, p.serverPort) && GoesBack(p, p.server.txSegment)
    && p.client == ClientState(0, 0, LoopHead)
    && p.server.lastRxSN == 1 && p.server.lastPayloadSize == 0 && p.server.written == []
    && p.server.txPacket == p.server.txSegment
    && p.server.txSegment.ackNumber == 1 && !HasFin(p.server.txSegment.details)
    && p.toServer == [] && p.toClient == [] && p.log == [] && p.taken == 0
  }

  ghost predicate GoesBack(p: Path, m: Tcp) {
    m.sourcePort == p.serverPort && m.destinationPort == p.clientPort
  }

  function ClientMoves(p: Path, moved: (ClientState, seq<Tcp>)): Path {
    p.(client := moved.0, toServer := p.toServer + moved.1, log := p.log + moved.1)
  }

  function AtTop(segs: seq<Tcp>, p: Path): Path {
    ClientMoves(p, ClientTop(segs, p.client))
  }

  function ClientTakes(segs: seq<Tcp>, p: Path): Path
    requires p.toClient != [] && p.client.unacked < |segs|
  {
    ClientMoves(p.(toClient := p.toClient[1..], taken := p.taken + 1), ClientReceives(segs, p.client, p.toClient[0]))
  }

  function ServerTakes(p: Path): Path
    requires p.toServer != []
  {
    var (server, reply) := ServerReceives(p.server, p.toServer[0]);
    p.(server := server, toServer := p.toServer[1..], toClient := p.toClient + [reply])
  }

  ghost predicate ClientStep(segs: seq<Tcp>, p: Path, q: Path) {
    || (p.client.phase.LoopHead? && q == AtTop(segs, p))
    || (p.client.phase.Waiting? && p.toClient != [] && p.client.unacked < |segs|
        && p.toClient[0].destinationPort == p.clientPort && q == ClientTakes(segs, p))
  }

  ghost predicate ServerStep(p: Path, q: Path) {
    && !ServerDone(p.server) && p.toServer != [] && p.toServer[0].destinationPort == p.serverPort
    && q == ServerTakes(p)
  }

  ghost predicate Step(segs: seq<Tcp>, p: Path, q: Path) {
    ClientStep(segs, p, q) || ServerStep(p, q)
  }

  ghost predicate IsRun(segs: seq<Tcp>, run: seq<Path>) {
    && |run| > 0 && IsStart(segs, run[0])
    && forall i :: 0 <= i < |run| - 1 ==> Step(segs, run[i], run[i + 1])
  }

  /** The acknowledgements on the way back are those of segments `from + 1` on, in order; the last one's has
      both FIN and ACK. */
  ghost predicate AcksInOrder(segs: seq<Tcp>, from: nat, acks: seq<Tcp>) {
    forall i :: 0 <= i < |acks| ==> AcksUpTo(segs, from + 1 + i, acks[i])
  }

  ghost predicate AcksUpTo(segs: seq<Tcp>, j: nat, m: Tcp) {
    Acknowledges(segs, j, m) && HasAck(m.details) && (HasFin(m.details) <==> j == |segs|)
  }

  /** Everything on the path is addressed to the socket it is meant for. */
  ghost predicate Addressed(segs: seq<Tcp>, p: Path) {
    && ForPorts(segs, p.clientPort, p.serverPort)
    && GoesBack(p, p.server.txSegment) && GoesBack(p, p.server.txPacket)
    && (forall i :: 0 <= i < |p.toServer| ==> p.toServer[i].destinationPort == p.serverPort)
    && forall i :: 0 <= i < |p.toClient| ==> GoesBack(p, p.toClient[i])
  }

  /** With `a` segments accepted: what lies on the path is what was sent and not accepted, and what was
      accepted and not acknowledged; and two segments have been sent for each acknowledgement taken. */
  ghost predicate Flows(segs: seq<Tcp>, p: Path, a: nat) {
    var u, next := p.client.unacked, p.client.next;
    && HasAccepted(segs, p.server, a)
    && u == p.taken && u <= a <= next <= |segs|
    && p.toServer == segs[a..next] && p.log == segs[..next]
    && |p.toClient| == a - u && AcksInOrder(segs, u, p.toClient)
    && match p.client.phase
       case LoopHead => next == Min(|segs|, 2 * u) && u < |segs|
       case Waiting => next == Min(|segs|, 2 * u + 1) && u < |segs|
       case Finished => u == |segs|
       case Thrown => false
  }

  lemma TopKeepsFlow(segs: seq<Tcp>, file: seq<byte>, p: Path, q: Path, a: nat)
    requires SegmentsOf(segs, file) && Flows(segs, p, a) && p.client.phase.LoopHead? && q == AtTop(segs, p)
    ensures Flows(segs, q, a) && StepsLeft(segs, q, a) < StepsLeft(segs, p, a)
  {
  }

  lemma LaterAcksInOrder(segs: seq<Tcp>, from: nat, acks: seq<Tcp>)
    requires AcksInOrder(segs, from, acks) && acks != []
    ensures AcksUpTo(segs, from + 1, acks[0]) && AcksInOrder(segs, from + 1, acks[1..])
  {
    assert AcksUpTo(segs, from + 1 + 0, acks[0]);
    forall i | 0 <= i < |acks[1..]|
      ensures AcksUpTo(segs, from + 1 + 1 + i, acks[1..][i])
    {
      assert AcksUpTo(segs, from + 1 + (i + 1), acks[i + 1]);
    }
  }

  /** The next acknowledgement ends the transfer if it is the last, and else lets the next segment go. */
  lemma AckAdvances(segs: seq<Tcp>, file: seq<byte>, c: ClientState, m: Tcp)
    requires SegmentsOf(segs, file) && c.phase.Waiting? && c.unacked < |segs| && AcksUpTo(segs, c.unacked + 1, m)
    ensures ClientReceives(segs, c, m) ==
            if c.unacked + 1 == |segs| then (ClientState(c.next, c.unacked + 1, Finished), [])
            else SendNext(segs, ClientState(c.next, c.unacked + 1, LoopHead))
  {
    AcknowledgeExactly(segs, file, c, c.unacked + 1, m);
  }

  lemma LastAckKeepsFlow(segs: seq<Tcp>, p: Path, q: Path, a: nat)
    requires Flows(segs, p, a) && p.client.phase.Waiting? && p.toClient != [] && p.client.unacked + 1 == |segs|
    requires AcksInOrder(segs, |segs|, p.toClient[1..])
    requires q == ClientMoves(p.(toClient := p.toClient[1..], taken := p.taken + 1),
                              (ClientState(p.client.next, |segs|, Finished), []))
    ensures Flows(segs, q, a) && StepsLeft(segs, q, a) < StepsLeft(segs, p, a)
  {
  }

  lemma NextAckKeepsFlow(segs: seq<Tcp>, p: Path, q: Path, a: nat, u: nat)
    requires Flows(segs, p, a) && p.client.phase.Waiting? && p.toClient != []
    requires u == p.client.unacked + 1 < |segs| && AcksInOrder(segs, u, p.toClient[1..])
    requires q == ClientMoves(p.(toClient := p.toClient[1..], taken := p.taken + 1),
                              SendNext(segs, ClientState(p.client.next, u, LoopHead)))
    ensures Flows(segs, q, a) && StepsLeft(segs, q, a) < StepsLeft(segs, p, a)
  {
  }

  lemma ClientTakesKeepsFlow(segs: seq<Tcp>, file: seq<byte>, p: Path, q: Path, a: nat)
    requires SegmentsOf(segs, file) && Flows(segs, p, a)
    requires p.client.phase.Waiting? && p.toClient != [] && p.client.unacked < |segs| && q == ClientTakes(segs, p)
    ensures Flows(segs, q, a) && StepsLeft(segs, q, a) < StepsLeft(segs, p, a)
  {
    var u := p.client.unacked + 1;
    LaterAcksInOrder(segs, u - 1, p.toClient);
    AckAdvances(segs, file, p.client, p.toClient[0]);
    if u == |segs| {
      LastAckKeepsFlow(segs, p, q, a);
    } else {
      NextAckKeepsFlow(segs, p, q, a, u);
    }
  }

  lemma ReplyAcksUpTo(segs: seq<Tcp>, file: seq<byte>, s: ServerState, a: nat)
    requires SegmentsOf(segs, file) && HasAccepted(segs, s, a) && a < |segs|
    ensures AcksUpTo(segs, a + 1, ServerReceives(s, segs[a]).1)
  {
    NextSegmentIsAccepted(segs, file, s, a);
    NextExpectedIs(segs, file, s, a);
    assert SegmentOk(segs, a);
  }

  lemma ServerTakesKeepsFlow(segs: seq<Tcp>, file: seq<byte>, p: Path, q: Path, a: nat)
    requires SegmentsOf(segs, file) && Flows(segs, p, a) && ServerStep(p, q)
    ensures Flows(segs, q, a + 1) && StepsLeft(segs, q, a + 1) < StepsLeft(segs, p, a)
  {
    NextSegmentIsAccepted(segs, file, p.server, a);
    ReplyAcksUpTo(segs, file, p.server, a);
    assert p.toServer[0] == segs[a];
    assert p.toServer[1..] == segs[a + 1..p.client.next];
  }

  lemma StepKeepsAddressed(segs: seq<Tcp>, p: Path, q: Path)
    requires Addressed(segs, p) && Step(segs, p, q)
    ensures Addressed(segs, q)
  {
  }

  lemma ClientStepKeepsFlow(segs: seq<Tcp>, file: seq<byte>, p: Path, q: Path, a: nat)
    requires SegmentsOf(segs, file) && Flows(segs, p, a) && ClientStep(segs, p, q)
    ensures Flows(segs, q, a) && StepsLeft(segs, q, a) < StepsLeft(segs, p, a)
  {
    if p.client.phase.LoopHead? {
      TopKeepsFlow(segs, file, p, q, a);
    } else {
      ClientTakesKeepsFlow(segs, file, p, q, a);
    }
  }

  lemma StepKeepsFlow(segs: seq<Tcp>, file: seq<byte>, p: Path, q: Path, a: nat) returns (b: nat)
    requires SegmentsOf(segs, file) && Flows(segs, p, a) && Step(segs, p, q)
    ensures Flows(segs, q, b)
    ensures StepsLeft(segs, q, b) < StepsLeft(segs, p, a)
  {
    if ClientStep(segs, p, q) {
      ClientStepKeepsFlow(segs, file, p, q, a);
      b := a;
    } else {
      ServerTakesKeepsFlow(segs, file, p, q, a);
      b := a + 1;
    }
  }

  function StepsLeft(segs: seq<Tcp>, p: Path, a: nat): int {
    2 * (|segs| - p.client.unacked) + (|segs| - a) + if p.client.phase.LoopHead? then 1 else 0
  }

  lemma StartFlows(segs: seq<Tcp>, file: seq<byte>, p: Path)
    requires SegmentsOf(segs, file) && IsStart(segs, p)
    ensures Flows(segs, p, 0)
  {
  }

  lemma NextKeepsFlow(segs: seq<Tcp>, file: seq<byte>, run: seq<Path>, i: nat, p: Path, q: Path, a: nat)
    returns (b: nat)
    requires SegmentsOf(segs, file) && IsRun(segs, run) && i + 1 < |run| && p == run[i] && q == run[i + 1]
    requires Flows(segs, p, a)
    ensures Flows(segs, q, b) && StepsLeft(segs, q, b) < StepsLeft(segs, p, a)
  {
    b := StepKeepsFlow(segs, file, p, q, a);
  }

  lemma {:induction false} TransferFlows(segs: seq<Tcp>, file: seq<byte>, run: seq<Path>, i: nat) returns (a: nat)
    requires SegmentsOf(segs, file) && IsRun(segs, run) && i < |run|
    ensures Flows(segs, run[i], a)
    ensures i + StepsLeft(segs, run[i], a) <= 3 * |segs| + 1
  {
    if i == 0 {
      a := 0;
      StartFlows(segs, file, run[0]);
    } else {
      var b := TransferFlows(segs, file, run, i - 1);
      a := NextKeepsFlow(segs, file, run, i - 1, run[i - 1], run[i], b);
    }
  }

  /** Every acknowledgement on its way goes from the server's port to the client's. */
  lemma {:induction false} StaysAddressed(segs: seq<Tcp>, run: seq<Path>, i: nat)
    requires IsRun(segs, run) && i < |run|
    ensures Addressed(segs, run[i])
  {
    if i > 0 {
      StaysAddressed(segs, run, i - 1);
      assert Step(segs, run[i - 1], run[i - 1 + 1]);
      StepKeepsAddressed(segs, run[i - 1], run[i]);
    }
  }

  /** When the client waits having taken `k` acknowledgements it has sent the first `min(n, 2k + 1)`
      segments, each once and in order: it never goes back, and its window doubles. */
  lemma WindowDoubles(segs: seq<Tcp>, file: seq<byte>, run: seq<Path>, i: nat)
    requires SegmentsOf(segs, file) && IsRun(segs, run) && i < |run|
    ensures run[i].client.next <= |segs| && run[i].log == segs[..run[i].client.next]
    ensures run[i].client.unacked == run[i].taken
    ensures run[i].client.phase.Waiting? ==> run[i].client.next == Min(|segs|, 2 * run[i].taken + 1)
  {
    var a := TransferFlows(segs, file, run, i);
  }

  /** No run is longer than `3n + 1` steps, and one that cannot go on has delivered the file: the
      transfer cannot deadlock, and both ends leave their loops. */
  lemma TransferCompletes(segs: seq<Tcp>, file: seq<byte>, run: seq<Path>)
    requires SegmentsOf(segs, file) && IsRun(segs, run)
    ensures |run| <= 3 * |segs| + 2
    ensures var p := run[|run| - 1];
            (exists q :: Step(segs, p, q))
            || (p.client.phase.Finished? && ServerDone(p.server) && p.server.written == file && p.log == segs
                && p.toServer == [] && p.toClient == [])
  {
    var p := run[|run| - 1];
    var a := TransferFlows(segs, file, run, |run| - 1);
    StaysAddressed(segs, run, |run| - 1);
    if p.client.phase.LoopHead? {
      assert Step(segs, p, AtTop(segs, p));
    } else if p.client.phase.Waiting? {
      if p.toClient != [] {
        assert Step(segs, p, ClientTakes(segs, p));
      } else {
        assert p.toServer != [] && Step(segs, p, ServerTakes(p));
      }
    }
  }
}
