/** One turn of the TCP client's and server's loops once the connection stands: what a received segment
    does to their variables, and what they send. */
module TcpEndpoints {
  import opened Bytes
  import opened Transport

  /** `Thrown` is an index past the end of the segment list, which `vector::at` throws for. */
  datatype Phase = LoopHead | Waiting | Finished | Thrown

  datatype ClientState = ClientState(next: nat, unacked: nat, phase: Phase)

  /** From the loop head to the wait for an acknowledgement: at most one segment is sent. */
  function ClientTop(segs: seq<Tcp>, c: ClientState): (ClientState, seq<Tcp>) {
    if c.unacked >= |segs| then (c.(phase := Finished), [])
    else SendNext(segs, c.(phase := Waiting))
  }

  function SendNext(segs: seq<Tcp>, c: ClientState): (ClientState, seq<Tcp>) {
    if c.next < |segs| then (c.(next := c.next + 1), [segs[c.next]]) else (c, [])
  }

  /** The acknowledgement number that covers a segment and all before it. */
  function Covering(seg: Tcp): nat {
    seg.sequenceNumber + |seg.payload|
  }

  /** The first segment from `i` on that `ack` covers exactly; `|segs|` when there is none. */
  function FindCovered(segs: seq<Tcp>, i: nat, ack: u32): (r: nat)
    requires i <= |segs|
    ensures i <= r <= |segs|
    ensures forall j :: i <= j < r ==> Covering(segs[j]) != ack
    ensures r < |segs| ==> Covering(segs[r]) == ack
    decreases |segs| - i
  {
    if i == |segs| || Covering(segs[i]) == ack then i else FindCovered(segs, i + 1, ack)
  }

  /** What an acknowledgement does to the two indices. */
  function Acknowledge(segs: seq<Tcp>, c: ClientState, ack: u32): ClientState
    requires c.unacked < |segs|
  {
    var expected := Covering(segs[c.unacked]) % 0x1_0000_0000;
    if ack == expected then c.(unacked := c.unacked + 1)
    else if ack > expected then
      var found := FindCovered(segs, c.unacked + 1, ack);
      if found == |segs| then c.(unacked := found, phase := Thrown) else c.(unacked := found + 1)
    else c.(next := c.unacked)
  }

  predicate IsFinalAck(rx: Tcp) {
    HasFin(rx.details) && HasAck(rx.details)
  }

  /** From the wait back to the loop head, or out of the loop. */
  function ClientReceives(segs: seq<Tcp>, c: ClientState, rx: Tcp): (ClientState, seq<Tcp>)
    requires c.unacked < |segs|
  {
    var d := Acknowledge(segs, c, rx.ackNumber);
    if d.phase.Thrown? then (d, [])
    else if IsFinalAck(rx) then (d.(phase := Finished), [])
    else SendNext(segs, d.(phase := LoopHead))
  }

  /** The file transfer half of `TCP_client`. */
  class TcpClient {
    const segmentsToSend: seq<Tcp>
    var nextSegmentIndex: nat
    var lastUnackedIndex: nat
    var phase: Phase

    function State(): ClientState
      reads this
    {
      ClientState(nextSegmentIndex, lastUnackedIndex, phase)
    }

    constructor (segmentsToSend: seq<Tcp>)
      ensures this.segmentsToSend == segmentsToSend && State() == ClientState(0, 0, LoopHead)
    {
      this.segmentsToSend := segmentsToSend;
      nextSegmentIndex := 0;
      lastUnackedIndex := 0;
      phase := LoopHead;
    }

    method SendSegment() returns (sent: seq<Tcp>)
      modifies this
      ensures (State(), sent) == SendNext(segmentsToSend, old(State()))
    {
      sent := [];
      if nextSegmentIndex < |segmentsToSend| {
        sent := [segmentsToSend[nextSegmentIndex]];
        nextSegmentIndex := nextSegmentIndex + 1;
      }
    }

    method Top() returns (sent: seq<Tcp>)
      modifies this
      ensures (State(), sent) == ClientTop(segmentsToSend, old(State()))
    {
      if lastUnackedIndex < |segmentsToSend| {
        phase := Waiting;
        sent := SendSegment();
      } else {
        phase := Finished;
        sent := [];
      }
    }

    /** The index advanced until a segment is covered exactly, or past the end. */
    method SkipTo(ackNumber: u32)
      requires lastUnackedIndex < |segmentsToSend|
      modifies this`lastUnackedIndex, this`phase
      ensures var found := FindCovered(segmentsToSend, old(lastUnackedIndex) + 1, ackNumber);
              if found == |segmentsToSend| then lastUnackedIndex == found && phase == Thrown
              else lastUnackedIndex == found + 1 && phase == old(phase)
    {
      ghost var found := FindCovered(segmentsToSend, lastUnackedIndex + 1, ackNumber);
      while true
        invariant lastUnackedIndex < |segmentsToSend| && phase == old(phase)
        invariant found == FindCovered(segmentsToSend, lastUnackedIndex + 1, ackNumber)
        decreases |segmentsToSend| - lastUnackedIndex
      {
        lastUnackedIndex := lastUnackedIndex + 1;
        if lastUnackedIndex == |segmentsToSend| {
          phase := Thrown;
          return;
        }
        var waiting := segmentsToSend[lastUnackedIndex];
        if ackNumber == waiting.sequenceNumber + |waiting.payload| {
          lastUnackedIndex := lastUnackedIndex + 1;
          return;
        }
      }
    }

    method OnAck(rx: Tcp) returns (sent: seq<Tcp>)
      requires lastUnackedIndex < |segmentsToSend|
      modifies this
      ensures (State(), sent) == ClientReceives(segmentsToSend, old(State()), rx)
    {
      sent := [];
      var waiting := segmentsToSend[lastUnackedIndex];
      var expectedSN := (waiting.sequenceNumber + |waiting.payload|) % 0x1_0000_0000;
      if rx.ackNumber != expectedSN {
        if rx.ackNumber > expectedSN {
          SkipTo(rx.ackNumber);
        } else {
          nextSegmentIndex := lastUnackedIndex;
        }
      } else {
        lastUnackedIndex := lastUnackedIndex + 1;
      }
      if phase.Thrown? {
        return;
      }
      if HasFin(rx.details) && HasAck(rx.details) {
        phase := Finished;
        return;
      }
      phase := LoopHead;
      sent := SendSegment();
    }

    /** The loop over frames taken from the socket; it blocks, and so stops here, when there are no more. */
    method Run(inbox: seq<Tcp>) returns (sent: seq<Tcp>, taken: nat)
      requires phase == LoopHead
      modifies this
      ensures taken <= |inbox| && (State(), sent) == ClientRun(segmentsToSend, old(State()), inbox[..taken])
      ensures phase == Waiting ==> taken == |inbox|
      ensures phase != LoopHead
    {
      sent := Top();
      taken := 0;
      while phase == Waiting && taken < |inbox|
        invariant taken <= |inbox| && (State(), sent) == ClientRun(segmentsToSend, old(State()), inbox[..taken])
        invariant phase == Waiting ==> lastUnackedIndex < |segmentsToSend|
        invariant phase != LoopHead
      {
        var more := OnAck(inbox[taken]);
        sent := sent + more;
        if phase == LoopHead {
          more := Top();
          sent := sent + more;
        }
        assert inbox[..taken + 1][..taken] == inbox[..taken];
        taken := taken + 1;
      }
    }
  }

  /** The client's loop from its head, given the frames it takes one by one. */
  function ClientRun(segs: seq<Tcp>, c: ClientState, taken: seq<Tcp>): (ClientState, seq<Tcp>) {
    if taken == [] then ClientTop(segs, c)
    else
      var (d, sent) := ClientRun(segs, c, taken[..|taken| - 1]);
      if d.phase != Waiting || d.unacked >= |segs| then (d, sent)
      else
        var (e, more) := ClientReceives(segs, d, taken[|taken| - 1]);
        if e.phase != LoopHead then (e, sent + more)
        else
          var (f, last) := ClientTop(segs, e);
          (f, sent + more + last)
  }

  /** `txPacket` is the last acknowledgement as it was put into an IP packet, kept for resending. */
  datatype ServerState = ServerState(
    lastRxSN: u32,
    lastPayloadSize: nat,
    written: seq<byte>,
    txSegment: Tcp,
    txPacket: Tcp)

  predicate ServerDone(s: ServerState) {
    HasFin(s.txSegment.details)
  }

  function NextExpected(s: ServerState): u32 {
    (s.lastRxSN + s.lastPayloadSize) % 0x1_0000_0000
  }

  /** A segment with the next expected number is written and acknowledged; anything else brings the last
      acknowledgement again. */
  function ServerReceives(s: ServerState, rx: Tcp): (ServerState, Tcp) {
    if rx.sequenceNumber == NextExpected(s) then
      var ack := s.txSegment.(
        details := WithAck(rx.details),
        sequenceNumber := rx.ackNumber,
        ackNumber := (rx.sequenceNumber + |rx.payload|) % 0x1_0000_0000);
      (ServerState(rx.sequenceNumber, |rx.payload|, s.written + rx.payload, ack, ack), ack)
    else (s, s.txPacket)
  }

  /** The file transfer half of `TCP_server`. */
  class TcpServer {
    var lastRxSN: u32
    var lastPayloadSize: nat
    var ofs: seq<byte>
    var txSegment: Tcp
    var txPacket: Tcp

    function State(): ServerState
      reads this
    {
      ServerState(lastRxSN, lastPayloadSize, ofs, txSegment, txPacket)
    }

    constructor (startSN: u32, synAck: Tcp)
      ensures State() == ServerState(startSN, 0, [], synAck, synAck)
    {
      lastRxSN := startSN;
      lastPayloadSize := 0;
      ofs := [];
      txSegment := synAck;
      txPacket := synAck;
    }

    method OnSegment(rx: Tcp) returns (reply: Tcp)
      modifies this
      ensures (State(), reply) == ServerReceives(old(State()), rx)
    {
      if rx.sequenceNumber == (lastRxSN + lastPayloadSize) % 0x1_0000_0000 {
        lastRxSN := rx.sequenceNumber;
        lastPayloadSize := |rx.payload|;
        for i := 0 to lastPayloadSize
          invariant ofs == old(ofs) + rx.payload[..i]
          invariant lastRxSN == rx.sequenceNumber && lastPayloadSize == |rx.payload|
          invariant txSegment == old(txSegment) && txPacket == old(txPacket)
        {
          ofs := ofs + [rx.payload[i]];
        }
        assert rx.payload[..|rx.payload|] == rx.payload;
        txSegment := txSegment.(details := rx.details);
        txSegment := txSegment.(details := WithAck(txSegment.details));
        txSegment := txSegment.(
          sequenceNumber := rx.ackNumber,
          ackNumber := (lastRxSN + lastPayloadSize) % 0x1_0000_0000);
        txPacket := txSegment;
      }
      reply := txPacket;
    }

    /** The loop over frames taken from the socket; it blocks, and so stops here, when there are no more. */
    method Run(inbox: seq<Tcp>) returns (replies: seq<Tcp>, taken: nat)
      modifies this
      ensures taken <= |inbox| && (taken < |inbox| ==> HasFin(txSegment.details))
      ensures (State(), replies) == ServerRun(old(State()), inbox[..taken])
      ensures forall k :: 0 < k < taken ==> GoesOn(old(State()), inbox, k)
    {
      replies, taken := [], 0;
      while taken < |inbox|
        invariant taken <= |inbox| && (State(), replies) == ServerRun(old(State()), inbox[..taken])
        invariant forall k :: 0 < k <= taken ==> GoesOn(old(State()), inbox, k)
      {
        var reply := OnSegment(inbox[taken]);
        replies := replies + [reply];
        assert inbox[..taken + 1][..taken] == inbox[..taken];
        taken := taken + 1;
        if HasFin(txSegment.details) {
          break;
        }
      }
    }
  }

  /** The server's loop, given frames one by one. */
  function ServerRun(s: ServerState, taken: seq<Tcp>): (ServerState, seq<Tcp>) {
    if taken == [] then (s, [])
    else
      var (t, replies) := ServerRun(s, taken[..|taken| - 1]);
      var (u, reply) := ServerReceives(t, taken[|taken| - 1]);
      (u, replies + [reply])
  }

  /** The server does not stop at the first `k` frames. */
  ghost predicate GoesOn(s: ServerState, inbox: seq<Tcp>, k: nat) {
    k <= |inbox| && !ServerDone(ServerRun(s, inbox[..k]).0)
  }
}
