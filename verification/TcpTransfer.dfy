/** The file transfer over a network that may lose, duplicate and reorder: whatever was ever sent may
    arrive at any time, any number of times, or never. */
module TcpTransfer {
  import opened Bytes
  import opened Transport
  import opened TcpSegments
  import opened TcpEndpoints

  datatype System = System(client: ClientState, server: ServerState, toServer: set<Tcp>, toClient: set<Tcp>)

  /** A segment of the handshake that may still be on its way: SYN, SYNACK or the final ACK. */
  ghost predicate OfHandshake(m: Tcp) {
    m.payload == [] && m.sequenceNumber <= 1 && !HasFin(m.details)
  }

  /** The connection stands: the server starts after number 1, and its SYNACK is the last thing it sent. */
  ghost predicate IsStart(s: System) {
    && s.client == ClientState(0, 0, LoopHead)
    && s.server.lastRxSN == 1 && s.server.lastPayloadSize == 0 && s.server.written == []
    && s.server.txPacket == s.server.txSegment
    && s.server.txSegment.ackNumber == 1 && !HasFin(s.server.txSegment.details)
    && (forall m :: m in s.toServer ==> OfHandshake(m))
    && forall m :: m in s.toClient ==> m.ackNumber == 1 && !HasFin(m.details)
  }

  function ClientMoves(s: System, moved: (ClientState, seq<Tcp>)): System {
    s.(client := moved.0, toServer := s.toServer + set m | m in moved.1)
  }

  function ServerMoves(s: System, moved: (ServerState, Tcp)): System {
    s.(server := moved.0, toClient := s.toClient + {moved.1})
  }

  ghost predicate Step(segs: seq<Tcp>, s: System, t: System) {
    || (s.client.phase.LoopHead? && t == ClientMoves(s, ClientTop(segs, s.client)))
    || (s.client.phase.Waiting? && s.client.unacked < |segs|
        && exists m :: m in s.toClient && t == ClientMoves(s, ClientReceives(segs, s.client, m)))
    || (!ServerDone(s.server) && exists m :: m in s.toServer && t == ServerMoves(s, ServerReceives(s.server, m)))
  }

  ghost predicate IsRun(segs: seq<Tcp>, run: seq<System>) {
    && |run| > 0 && IsStart(run[0])
    && forall i :: 0 <= i < |run| - 1 ==> Step(segs, run[i], run[i + 1])
  }

  /** `m` acknowledges exactly the first `j` segments. */
  ghost predicate Acknowledges(segs: seq<Tcp>, j: nat, m: Tcp) {
    j <= |segs| && m.ackNumber == 1 + Offset(segs, j) && (HasFin(m.details) ==> j == |segs|)
  }

  /** The server has accepted exactly the first `k` segments, and its pending acknowledgement says so. */
  ghost predicate HasAccepted(segs: seq<Tcp>, s: ServerState, k: nat) {
    && k <= |segs| && s.written == Carried(segs, k)
    && s.lastRxSN + s.lastPayloadSize == 1 + Offset(segs, k)
    && s.txPacket == s.txSegment && s.txSegment.ackNumber == 1 + Offset(segs, k)
    && (HasFin(s.txSegment.details) <==> k == |segs|)
  }

  ghost predicate ClientOk(segs: seq<Tcp>, c: ClientState, k: nat) {
    && c.next <= |segs| && c.unacked <= k && !c.phase.Thrown?
    && (c.phase.Finished? ==> k == |segs|)
    && (c.phase.Waiting? ==> c.unacked < |segs|)
  }

  ghost predicate MayArriveAtClient(segs: seq<Tcp>, k: nat, m: Tcp) {
    exists j: nat :: j <= k && Acknowledges(segs, j, m)
  }

  ghost predicate Correct(segs: seq<Tcp>, s: System, k: nat) {
    && HasAccepted(segs, s.server, k) && ClientOk(segs, s.client, k)
    && (forall m :: m in s.toServer ==> m in segs || OfHandshake(m))
    && forall m :: m in s.toClient ==> MayArriveAtClient(segs, k, m)
  }

  /** What one acknowledgement of `j` segments does: news moves the window up to `j` in one scan that
      always finds its segment, no news goes back to the first unacknowledged segment. */
  lemma AcknowledgeExactly(segs: seq<Tcp>, file: seq<byte>, c: ClientState, j: nat, m: Tcp)
    requires SegmentsOf(segs, file) && c.unacked < |segs| && Acknowledges(segs, j, m)
    ensures Acknowledge(segs, c, m.ackNumber) ==
            if j > c.unacked then c.(unacked := j) else c.(next := c.unacked)
  {
    var u := c.unacked;
    SegmentsAreNotEmpty(segs, file);
    CoveringIsOffset(segs, file, u);
    OffsetsOrdered(segs, j, u + 1);
    if j > u + 1 {
      var r := FindCovered(segs, u + 1, m.ackNumber);
      CoveringIsOffset(segs, file, j - 1);
      assert Covering(segs[j - 1]) == m.ackNumber;
      if r < |segs| {
        CoveringIsOffset(segs, file, r);
        OffsetsOrdered(segs, j, r + 1);
      }
    }
  }

  lemma ClientStepKeeps(segs: seq<Tcp>, file: seq<byte>, c: ClientState, k: nat, m: Tcp)
    requires SegmentsOf(segs, file) && ClientOk(segs, c, k) && c.phase.Waiting?
    requires k <= |segs| && MayArriveAtClient(segs, k, m)
    ensures ClientOk(segs, ClientReceives(segs, c, m).0, k)
    ensures forall n :: n in ClientReceives(segs, c, m).1 ==> n in segs
  {
    var j: nat :| j <= k && Acknowledges(segs, j, m);
    AcknowledgeExactly(segs, file, c, j, m);
  }

  lemma NextExpectedIs(segs: seq<Tcp>, file: seq<byte>, s: ServerState, k: nat)
    requires SegmentsOf(segs, file) && HasAccepted(segs, s, k)
    ensures NextExpected(s) == 1 + Offset(segs, k)
  {
    CarriedIsPrefix(segs, k, |segs|);
  }

  lemma OnlyNextMatches(segs: seq<Tcp>, file: seq<byte>, k: nat, m: Tcp)
    requires SegmentsOf(segs, file) && k < |segs| && (m in segs || OfHandshake(m))
    ensures m == segs[k] ==> m.sequenceNumber == 1 + Offset(segs, k)
    ensures m.sequenceNumber == 1 + Offset(segs, k) ==> m == segs[k] || (k == 0 && OfHandshake(m))
  {
    assert SegmentOk(segs, k);
    SegmentsAreNotEmpty(segs, file);
    if m in segs {
      var i :| 0 <= i < |segs| && segs[i] == m;
      assert SegmentOk(segs, i);
      OffsetsOrdered(segs, i, k);
    } else {
      OffsetsOrdered(segs, 0, k);
    }
  }

  lemma NextSegmentIsAccepted(segs: seq<Tcp>, file: seq<byte>, s: ServerState, k: nat)
    requires SegmentsOf(segs, file) && HasAccepted(segs, s, k) && k < |segs|
    ensures var (t, reply) := ServerReceives(s, segs[k]);
            HasAccepted(segs, t, k + 1) && reply == t.txPacket && Acknowledges(segs, k + 1, reply)
  {
    assert SegmentOk(segs, k);
    NextExpectedIs(segs, file, s, k);
    CoveringIsOffset(segs, file, k);
  }

  /** A segment the server takes is the next one, or a handshake segment that changes nothing. */
  lemma ServerStepExactly(segs: seq<Tcp>, file: seq<byte>, s: ServerState, k: nat, m: Tcp)
    requires SegmentsOf(segs, file) && HasAccepted(segs, s, k) && k < |segs| && (m in segs || OfHandshake(m))
    ensures var (t, reply) := ServerReceives(s, m);
            var accepted := if m == segs[k] then k + 1 else k;
            HasAccepted(segs, t, accepted) && reply == t.txPacket && Acknowledges(segs, accepted, reply)
  {
    OnlyNextMatches(segs, file, k, m);
    NextExpectedIs(segs, file, s, k);
    if m == segs[k] {
      NextSegmentIsAccepted(segs, file, s, k);
    }
  }

  lemma StepKeepsCorrect(segs: seq<Tcp>, file: seq<byte>, s: System, t: System, k: nat) returns (k': nat)
    requires SegmentsOf(segs, file) && Correct(segs, s, k) && Step(segs, s, t)
    ensures Correct(segs, t, k') && k <= k' <= k + 1
  {
    k' := k;
    if s.client.phase.LoopHead? && t == ClientMoves(s, ClientTop(segs, s.client)) {
    } else if s.client.phase.Waiting? && s.client.unacked < |segs|
        && exists m :: m in s.toClient && t == ClientMoves(s, ClientReceives(segs, s.client, m)) {
      var m :| m in s.toClient && t == ClientMoves(s, ClientReceives(segs, s.client, m));
      ClientStepKeeps(segs, file, s.client, k, m);
    } else {
      var m :| m in s.toServer && t == ServerMoves(s, ServerReceives(s.server, m));
      ServerStepExactly(segs, file, s.server, k, m);
      k' := if m == segs[k] then k + 1 else k;
      assert MayArriveAtClient(segs, k', t.server.txPacket);
    }
  }

  /** Over any run there is, at each moment, a number of segments the server has accepted. */
  lemma {:induction false} TransferStaysCorrect(segs: seq<Tcp>, file: seq<byte>, run: seq<System>, i: nat)
    returns (k: nat)
    requires SegmentsOf(segs, file) && IsRun(segs, run) && i < |run|
    ensures Correct(segs, run[i], k)
  {
    if i == 0 {
      k := 0;
      forall m | m in run[0].toClient
        ensures MayArriveAtClient(segs, 0, m)
      {
        assert Acknowledges(segs, 0, m);
      }
    } else {
      k := TransferStaysCorrect(segs, file, run, i - 1);
      assert Step(segs, run[i - 1], run[i - 1 + 1]);
      k := StepKeepsCorrect(segs, file, run[i - 1], run[i], k);
    }
  }

  /** What the server has written is always a prefix of the file, made of whole segments, and both its
      next expected number and its pending acknowledgement are one more than the bytes written. */
  lemma WrittenIsPrefix(segs: seq<Tcp>, file: seq<byte>, run: seq<System>, i: nat)
    requires SegmentsOf(segs, file) && IsRun(segs, run) && i < |run|
    ensures run[i].server.written <= file
    ensures exists k: nat :: k <= |segs| && run[i].server.written == Carried(segs, k)
    ensures run[i].server.lastRxSN + run[i].server.lastPayloadSize == 1 + |run[i].server.written|
    ensures run[i].server.txPacket.ackNumber == 1 + |run[i].server.written|
  {
    var k := TransferStaysCorrect(segs, file, run, i);
    CarriedIsPrefix(segs, k, |segs|);
  }

  /** The server leaves its loop exactly when it has the whole file, and the client leaves its loop, by
      either way out, only then. */
  lemma BothAgreeOnCompletion(segs: seq<Tcp>, file: seq<byte>, run: seq<System>, i: nat)
    requires SegmentsOf(segs, file) && IsRun(segs, run) && i < |run|
    ensures ServerDone(run[i].server) <==> run[i].server.written == file
    ensures run[i].client.phase.Finished? ==> ServerDone(run[i].server)
  {
    var k := TransferStaysCorrect(segs, file, run, i);
    SegmentsAreNotEmpty(segs, file);
    OffsetsOrdered(segs, k, |segs|);
  }

  /** No acknowledgement that can arrive takes the client past the end of its list. */
  lemma ClientNeverThrows(segs: seq<Tcp>, file: seq<byte>, run: seq<System>, i: nat)
    requires SegmentsOf(segs, file) && IsRun(segs, run) && i < |run|
    ensures !run[i].client.phase.Thrown?
    ensures forall m :: m in run[i].toClient ==> exists j: nat :: j <= |segs| && m.ackNumber == 1 + Offset(segs, j)
  {
    var k := TransferStaysCorrect(segs, file, run, i);
    forall m | m in run[i].toClient
      ensures exists j: nat :: j <= |segs| && m.ackNumber == 1 + Offset(segs, j)
    {
      var j: nat :| j <= k && Acknowledges(segs, j, m);
    }
  }

  /** What the server has written is never taken back or rewritten. */
  lemma {:induction false} WrittenOnlyGrows(segs: seq<Tcp>, file: seq<byte>, run: seq<System>, i: nat, j: nat)
    requires SegmentsOf(segs, file) && IsRun(segs, run) && i <= j < |run|
    ensures run[i].server.written <= run[j].server.written
    decreases j
  {
    if i < j {
      WrittenOnlyGrows(segs, file, run, i, j - 1);
      assert Step(segs, run[j - 1], run[j - 1 + 1]);
    }
  }
}
