/** The steps of the network are what the switch object does. */
module SwitchSteps {
  import opened Frames
  import opened LearningSwitch
  import opened Wiring
  import opened Network

  /** What stands at the far end of each transmission is the transmitted frame. */
  ghost predicate AreCopies(t: Topology, s: SwitchId, sent: seq<(nat, Frame)>, outs: seq<Copy>, hops: nat) {
    && |outs| == |sent|
    && forall k :: 0 <= k < |sent| ==>
         HasPort(t, s, sent[k].0) && outs[k] == Copy(sent[k].1, FarEnd(t, s, sent[k].0), hops)
  }

  /** One turn of the sender, for a copy whose frame is at the front of the queue, is the copy's `Forward`. */
  method SendingIsForwarding(sw: Switch, ghost t: Topology, ghost n: Net, ghost i: nat)
    returns (sent: seq<(nat, Frame)>, ghost outs: seq<Copy>)
    requires sw.Valid() && sw.frameQueue.queue != [] && Enabled(t, n, Forward(i))
    requires n.tables[n.flight[i].at.s] == sw.Contents() && sw.interfaces == |t.ports[n.flight[i].at.s]|
    requires sw.frameQueue.queue[0] == n.flight[i].frame
    modifies sw.frameQueue`queue
    ensures forall k :: 0 <= k < |sent| ==> sent[k].1 == n.flight[i].frame
    ensures AreCopies(t, n.flight[i].at.s, sent, outs, n.flight[i].hops + 1)
    ensures Next(t, n, Forward(i)).flight == Without(n.flight, i) + outs
    ensures Next(t, n, Forward(i)).tables[n.flight[i].at.s] == sw.Contents()
  {
    ghost var c := n.flight[i];
    ghost var txFrame;
    txFrame, sent := sw.SendNext();
    assert txFrame == c.frame;
    outs := CopiesOut(t, c.at.s, Interfaces(t, n, c.at.s, c.frame), c);
    assert AreCopies(t, c.at.s, sent, outs, c.hops + 1);
  }

  /** Processing a received frame is the copy's `Receive`; the queue is not full. */
  method ProcessingIsReceiving(sw: Switch, rxFrame: Frame, inIf: nat, ghost t: Topology, ghost n: Net, ghost i: nat)
    requires sw.Valid() && Enabled(t, n, Receive(i)) && n.tables[n.flight[i].at.s] == sw.Contents()
    requires rxFrame == n.flight[i].frame && inIf == n.flight[i].at.port
    requires |sw.frameQueue.queue| < sw.frameQueue.maxEntries
    modifies sw`switchTable, sw.switchTable, sw.frameQueue`queue
    ensures sw.Valid() && Next(t, n, Receive(i)).tables[n.flight[i].at.s] == sw.Contents()
    ensures sw.frameQueue.queue == old(sw.frameQueue.queue) + [n.flight[i].frame]
    ensures Next(t, n, Receive(i)).flight[i] == n.flight[i].(at := InSwitch(n.flight[i].at.s))
  {
    sw.ProcessFrame(rxFrame, inIf);
  }
}
