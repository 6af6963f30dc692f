/** What the acknowledgements of a transfer carry, and to whom they go, over any run. */
module TcpAnswers {
  import opened Bytes
  import opened Transport
  import opened TcpSegments
  import opened TcpEndpoints
  import opened TcpTransfer

  /** `m` acknowledges `r` on the connection that `synAck` opened: it goes where that went and its number is
      what `r` expects next; its flags are those of `r` with ACK. */
  ghost predicate Answers(synAck: Tcp, r: Tcp, m: Tcp) {
    && m.sourcePort == synAck.sourcePort && m.destinationPort == synAck.destinationPort
    && m.receiveWindow == synAck.receiveWindow && m.checksum == synAck.checksum && m.payload == synAck.payload
    && m.sequenceNumber == r.ackNumber
    && m.ackNumber == (r.sequenceNumber + |r.payload|) % 0x1_0000_0000
    && m.details == WithAck(r.details)
  }

  /** What can be on its way in a run from `start`: the first messages, the client's segments, and answers. */
  ghost predicate IsSent(segs: seq<Tcp>, start: System, m: Tcp) {
    m in segs || m in start.toServer
  }

  ghost predicate IsAnswer(segs: seq<Tcp>, start: System, m: Tcp) {
    || m == start.server.txPacket
    || exists r :: IsSent(segs, start, r) && Answers(start.server.txPacket, r, m)
  }

  ghost predicate OnlyAnswers(segs: seq<Tcp>, start: System, s: System) {
    && IsAnswer(segs, start, s.server.txPacket) && s.server.txSegment == s.server.txPacket
    && (forall m :: m in s.toServer ==> IsSent(segs, start, m))
    && forall m :: m in s.toClient ==> m in start.toClient || IsAnswer(segs, start, m)
  }

  lemma ReplyAnswers(segs: seq<Tcp>, start: System, s: System, rx: Tcp)
    requires OnlyAnswers(segs, start, s) && IsSent(segs, start, rx)
    ensures var (t, reply) := ServerReceives(s.server, rx);
            IsAnswer(segs, start, reply) && t.txPacket == reply && t.txSegment == reply
  {
    if rx.sequenceNumber == NextExpected(s.server) {
      assert Answers(start.server.txPacket, rx, ServerReceives(s.server, rx).1);
    }
  }

  lemma StepKeepsAnswers(segs: seq<Tcp>, start: System, s: System, t: System)
    requires OnlyAnswers(segs, start, s) && Step(segs, s, t)
    ensures OnlyAnswers(segs, start, t)
  {
    if m :| !ServerDone(s.server) && m in s.toServer && t == ServerMoves(s, ServerReceives(s.server, m)) {
      ReplyAnswers(segs, start, s, m);
    }
  }

  /** Whatever is lost, repeated or overtaken, the client only ever sends the segments it cut, and what goes
      back is the SYNACK or answers something the server received. */
  lemma {:induction false} AcknowledgementsAnswer(segs: seq<Tcp>, run: seq<System>, i: nat)
    requires IsRun(segs, run) && i < |run|
    ensures OnlyAnswers(segs, run[0], run[i])
  {
    if i > 0 {
      AcknowledgementsAnswer(segs, run, i - 1);
      assert Step(segs, run[i - 1], run[i - 1 + 1]);
      StepKeepsAnswers(segs, run[0], run[i - 1], run[i]);
    }
  }

  /** Ports stay what the handshake made them: with a SYNACK from the server's port to the client's, and the
      first messages alike, everything that ever goes back is for the client's port. */
  lemma PortsStay(segs: seq<Tcp>, run: seq<System>, i: nat, clientPort: u16, serverPort: u16)
    requires IsRun(segs, run) && i < |run| && ForPorts(segs, clientPort, serverPort)
    requires forall m :: m in run[0].toServer ==> m.sourcePort == clientPort && m.destinationPort == serverPort
    requires forall m :: m in run[0].toClient + {run[0].server.txPacket} ==>
               m.sourcePort == serverPort && m.destinationPort == clientPort
    ensures forall m :: m in run[i].toServer ==> m.sourcePort == clientPort && m.destinationPort == serverPort
    ensures forall m :: m in run[i].toClient + {run[i].server.txPacket} ==>
              m.sourcePort == serverPort && m.destinationPort == clientPort
  {
    AcknowledgementsAnswer(segs, run, i);
  }

  /** An acknowledgement of data has the sequence number 1, the number after the segment it answers, the flag
      ACK, and FIN exactly for the last segment. */
  lemma DataIsAcknowledged(segs: seq<Tcp>, file: seq<byte>, run: seq<System>, i: nat, m: Tcp)
    requires SegmentsOf(segs, file) && IsRun(segs, run) && i < |run| && m in run[i].toClient && m.ackNumber > 1
    ensures exists j :: 0 <= j < |segs| && Answers(run[0].server.txPacket, segs[j], m)
    ensures m.sequenceNumber == 1 && m.ackNumber <= 1 + |file|
    ensures m.details == if m.ackNumber == 1 + |file| then 0x0011 else 0x0010
  {
    AcknowledgementsAnswer(segs, run, i);
    var r :| IsSent(segs, run[0], r) && Answers(run[0].server.txPacket, r, m);
    assert r in segs;
    var j :| 0 <= j < |segs| && segs[j] == r;
    AnswerToSegment(segs, file, run[0].server.txPacket, j, m);
  }

  lemma AnswerToSegment(segs: seq<Tcp>, file: seq<byte>, synAck: Tcp, j: nat, m: Tcp)
    requires SegmentsOf(segs, file) && j < |segs| && Answers(synAck, segs[j], m)
    ensures m.sequenceNumber == 1 && m.ackNumber <= 1 + |file|
    ensures m.details == if m.ackNumber == 1 + |file| then 0x0011 else 0x0010
  {
    assert SegmentOk(segs, j);
    SegmentsAreNotEmpty(segs, file);
    CoveringIsOffset(segs, file, j);
    OffsetsOrdered(segs, j + 1, |segs|);
  }

  // One turn of the client, for any acknowledgement

  /** The client leaves its loop at once exactly for FIN and ACK together, unless it throws. */
  lemma ClientLeavesIff(segs: seq<Tcp>, c: ClientState, rx: Tcp)
    requires c.unacked < |segs| && c.phase.Waiting?
    ensures var d := ClientReceives(segs, c, rx).0;
            d.phase.Finished? <==> !d.phase.Thrown? && (rx.details as bv16) & 0x0011 == 0x0011
    ensures var d := ClientReceives(segs, c, rx).0;
            d.phase.LoopHead? <==> !d.phase.Thrown? && (rx.details as bv16) & 0x0011 != 0x0011
  {
    FlagsAreBits(rx.details);
  }

  /** It throws exactly for a number beyond what it expects that no later segment ends at. */
  lemma ClientThrowsIff(segs: seq<Tcp>, c: ClientState, rx: Tcp)
    requires c.unacked < |segs| && c.phase.Waiting?
    ensures ClientReceives(segs, c, rx).0.phase.Thrown? <==>
            && rx.ackNumber > (segs[c.unacked].sequenceNumber + |segs[c.unacked].payload|) % 0x1_0000_0000
            && forall j :: c.unacked < j < |segs| ==> Covering(segs[j]) != rx.ackNumber
  {
  }

  // The loops of the two objects are runs of the transfer

  ghost predicate Connected(segs: seq<Tcp>, run: seq<System>) {
    && run != []
    && forall i :: 0 <= i < |run| - 1 ==> Step(segs, run[i], run[i + 1])
  }

  lemma OneMore(segs: seq<Tcp>, run: seq<System>, t: System) returns (longer: seq<System>)
    requires Connected(segs, run) && Step(segs, run[|run| - 1], t)
    ensures Connected(segs, longer) && longer == run + [t]
  {
    longer := run + [t];
  }

  function Sent(s: System, client: ClientState, sent: seq<Tcp>): System {
    s.(client := client, toServer := s.toServer + set m | m in sent)
  }

  lemma SentTwice(s: System, c: ClientState, d: ClientState, first: seq<Tcp>, second: seq<Tcp>)
    ensures ClientMoves(Sent(s, c, first), (d, second)) == Sent(s, d, first + second)
  {
  }

  function Replied(s: System, server: ServerState, replies: seq<Tcp>): System {
    s.(server := server, toClient := s.toClient + set m | m in replies)
  }

  lemma RepliedTwice(s: System, c: ServerState, d: ServerState, first: seq<Tcp>, reply: Tcp)
    ensures ServerMoves(Replied(s, c, first), (d, reply)) == Replied(s, d, first + [reply])
  {
  }

  /** The client's loop over frames that can arrive takes the transfer from one state to another by its own
      steps, and puts what it sends on the way to the server. */
  lemma {:induction false} ClientRunIsSteps(segs: seq<Tcp>, s: System, taken: seq<Tcp>) returns (run: seq<System>)
    requires s.client.phase.LoopHead? && forall m :: m in taken ==> m in s.toClient
    ensures Connected(segs, run) && run[0] == s
    ensures var (client, sent) := ClientRun(segs, s.client, taken); run[|run| - 1] == Sent(s, client, sent)
  {
    if taken == [] {
      run := OneMore(segs, [s], ClientMoves(s, ClientTop(segs, s.client)));
    } else {
      run := ClientRunIsSteps(segs, s, taken[..|taken| - 1]);
      run := ClientTurnIsSteps(segs, s, taken, run);
    }
  }

  lemma ClientTurnIsSteps(segs: seq<Tcp>, s: System, taken: seq<Tcp>, run: seq<System>) returns (longer: seq<System>)
    requires taken != [] && taken[|taken| - 1] in s.toClient && Connected(segs, run) && run[0] == s
    requires var (client, sent) := ClientRun(segs, s.client, taken[..|taken| - 1]);
             run[|run| - 1] == Sent(s, client, sent)
    ensures Connected(segs, longer) && longer[0] == s
    ensures var (client, sent) := ClientRun(segs, s.client, taken); longer[|longer| - 1] == Sent(s, client, sent)
  {
    var (d, sent) := ClientRun(segs, s.client, taken[..|taken| - 1]);
    longer := run;
    if d.phase.Waiting? && d.unacked < |segs| {
      var (e, more) := ClientReceives(segs, d, taken[|taken| - 1]);
      SentTwice(s, d, e, sent, more);
      longer := OneMore(segs, longer, Sent(s, e, sent + more));
      if e.phase.LoopHead? {
        var (f, last) := ClientTop(segs, e);
        SentTwice(s, e, f, sent + more, last);
        longer := OneMore(segs, longer, Sent(s, f, sent + more + last));
      }
    }
  }

  /** The same for the server's loop, up to the frame that ends it. */
  lemma {:induction false} ServerRunIsSteps(segs: seq<Tcp>, s: System, taken: seq<Tcp>) returns (run: seq<System>)
    requires forall m :: m in taken ==> m in s.toServer
    requires forall k :: 0 <= k < |taken| ==> GoesOn(s.server, taken, k)
    ensures Connected(segs, run) && run[0] == s
    ensures var (server, replies) := ServerRun(s.server, taken); run[|run| - 1] == Replied(s, server, replies)
  {
    if taken == [] {
      run := [s];
    } else {
      var before := taken[..|taken| - 1];
      forall k | 0 <= k < |before|
        ensures GoesOn(s.server, before, k)
      {
        assert before[..k] == taken[..k] && GoesOn(s.server, taken, k);
      }
      run := ServerRunIsSteps(segs, s, before);
      assert GoesOn(s.server, taken, |taken| - 1);
      var (t, replies) := ServerRun(s.server, before);
      var (u, reply) := ServerReceives(t, taken[|taken| - 1]);
      RepliedTwice(s, t, u, replies, reply);
      run := OneMore(segs, run, Replied(s, u, replies + [reply]));
    }
  }

  lemma Continued(segs: seq<Tcp>, run: seq<System>, more: seq<System>) returns (longer: seq<System>)
    requires IsRun(segs, run) && Connected(segs, more) && more[0] == run[|run| - 1]
    ensures IsRun(segs, longer) && run <= longer && longer[|longer| - 1] == more[|more| - 1]
  {
    longer := run + more[1..];
    forall i | 0 <= i < |longer| - 1
      ensures Step(segs, longer[i], longer[i + 1])
    {
      if i >= |run| - 1 {
        assert Step(segs, more[i + 1 - |run|], more[i + 1 - |run| + 1]);
      }
    }
  }

  /** A client object at the end of any run: its loop over frames that can arrive makes a longer run, so all
      that holds of runs holds of the object. */
  method ClientContinues(client: TcpClient, inbox: seq<Tcp>, ghost run: seq<System>)
    returns (sent: seq<Tcp>, taken: nat, ghost longer: seq<System>)
    requires client.phase.LoopHead? && IsRun(client.segmentsToSend, run)
    requires run[|run| - 1].client == client.State()
    requires forall m :: m in inbox ==> m in run[|run| - 1].toClient
    modifies client
    ensures IsRun(client.segmentsToSend, longer) && run <= longer
    ensures longer[|longer| - 1] == Sent(run[|run| - 1], client.State(), sent)
    ensures taken <= |inbox| && (client.phase.Waiting? ==> taken == |inbox|)
  {
    sent, taken := client.Run(inbox);
    assert forall m :: m in inbox[..taken] ==> m in inbox;
    ghost var more := ClientRunIsSteps(client.segmentsToSend, run[|run| - 1], inbox[..taken]);
    longer := Continued(client.segmentsToSend, run, more);
  }

  /** A server object at the end of any run, whatever of the frames on their way it takes: its loop makes a
      longer run, what it has written is a prefix of the file, and it has stopped exactly if that is all. */
  method ServerContinues(server: TcpServer, inbox: seq<Tcp>,
                         ghost segs: seq<Tcp>, ghost file: seq<byte>, ghost run: seq<System>)
    returns (replies: seq<Tcp>, taken: nat, ghost longer: seq<System>)
    requires SegmentsOf(segs, file) && IsRun(segs, run) && run[|run| - 1].server == server.State()
    requires !HasFin(server.txSegment.details)
    requires forall m :: m in inbox ==> m in run[|run| - 1].toServer
    modifies server
    ensures IsRun(segs, longer) && run <= longer
    ensures longer[|longer| - 1] == Replied(run[|run| - 1], server.State(), replies)
    ensures server.ofs <= file && (HasFin(server.txSegment.details) <==> server.ofs == file)
    ensures taken <= |inbox| && (server.ofs != file ==> taken == |inbox|)
  {
    ghost var before := server.State();
    replies, taken := server.Run(inbox);
    ghost var given := inbox[..taken];
    assert forall m :: m in given ==> m in inbox;
    forall k | 0 <= k < |given|
      ensures GoesOn(before, given, k)
    {
      assert given[..k] == inbox[..k];
      assert k > 0 ==> GoesOn(before, inbox, k);
    }
    ghost var more := ServerRunIsSteps(segs, run[|run| - 1], given);
    longer := Continued(segs, run, more);
    WrittenIsPrefix(segs, file, longer, |longer| - 1);
    BothAgreeOnCompletion(segs, file, longer, |longer| - 1);
  }
}
