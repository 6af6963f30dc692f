/** Where each field lies in the bytes that travel, without reference to how they are written or read. */
module WireLayout {
  import opened Bytes
  import opened Transport
  import opened Codecs
  import opened Packets

  /** The two bytes from `i` on are `x`, the more significant first. */
  predicate Has16(b: seq<byte>, i: nat, x: u16) {
    i + 2 <= |b| && b[i] as int * 0x100 + b[i + 1] as int == x
  }

  predicate Has32(b: seq<byte>, i: nat, x: u32) {
    && i + 4 <= |b|
    && b[i] as int * 0x100_0000 + b[i + 1] as int * 0x1_0000 + b[i + 2] as int * 0x100 + b[i + 3] as int == x
  }

  lemma NumberAt(b: seq<byte>, i: nat)
    requires i + 2 <= |b|
    ensures Has16(b, i, Number16(b[i..i + 2]))
  {
    PairIsNumber(b, i);
  }

  lemma LongNumberAt(b: seq<byte>, i: nat)
    requires i + 4 <= |b|
    ensures Has32(b, i, Number32(b[i..i + 4]))
  {
    QuadIsNumber(b, i);
  }

  lemma TcpLayout(t: Tcp)
    ensures var b := TcpBytes(t);
            && |b| == 18 + |t.payload| && b[18..] == t.payload
            && Has16(b, 0, t.sourcePort) && Has16(b, 2, t.destinationPort)
            && Has32(b, 4, t.sequenceNumber) && Has32(b, 8, t.ackNumber)
            && Has16(b, 12, t.details) && Has16(b, 14, t.receiveWindow) && Has16(b, 16, t.checksum)
  {
    var b := TcpBytes(t);
    TcpRoundTrip(t);
    NumberAt(b, 0);
    NumberAt(b, 2);
    LongNumberAt(b, 4);
    LongNumberAt(b, 8);
    NumberAt(b, 12);
    NumberAt(b, 14);
    NumberAt(b, 16);
  }

  lemma UdpLayout(u: Udp)
    ensures var b := UdpBytes(u);
            && |b| == 8 + |u.payload| && b[8..] == u.payload
            && Has16(b, 0, u.sourcePort) && Has16(b, 2, u.destinationPort)
            && Has16(b, 4, u.length) && Has16(b, 6, u.checksum)
  {
    var b := UdpBytes(u);
    UdpRoundTrip(u);
    NumberAt(b, 0);
    NumberAt(b, 2);
    NumberAt(b, 4);
    NumberAt(b, 6);
  }

  lemma IcmpLayout(i: Icmp)
    ensures var b := IcmpBytes(i);
            && |b| == 8 + |i.payload| && b[8..] == i.payload && b[0] == i.kind && b[1] == i.code
            && Has16(b, 2, i.checksum) && Has16(b, 4, i.identifier) && Has16(b, 6, i.sequenceNumber)
  {
    var b := IcmpBytes(i);
    IcmpRoundTrip(i);
    NumberAt(b, 2);
    NumberAt(b, 4);
    NumberAt(b, 6);
  }

  lemma ArpLayout(a: Arp)
    ensures var b := ArpBytes(a);
            && |b| == 22 && Has16(b, 0, a.opcode) && b[2..8] == a.senderMac && Has32(b, 8, a.senderIp)
            && b[12..18] == a.targetMac && Has32(b, 18, a.targetIp)
  {
    var b := ArpBytes(a);
    ArpRoundTrip(a);
    NumberAt(b, 0);
    LongNumberAt(b, 8);
    LongNumberAt(b, 18);
  }

  lemma DhcpLayout(d: Dhcp)
    ensures var b := DhcpBytes(d);
            |b| == 9 && b[0] == d.opcode && Has32(b, 1, d.clientIp) && Has32(b, 5, d.yourIp)
  {
    var b := DhcpBytes(d);
    DhcpRoundTrip(d);
    LongNumberAt(b, 1);
    LongNumberAt(b, 5);
  }

  /** The twelve bytes of a header that `encap_SDU` filled, for any payload and protocol. */
  lemma PacketLayout(p: Packet, protocol: byte, sdu: seq<byte>)
    requires p.headerLength == 12
    ensures var b := PacketBytes(Encapsulated(p, protocol, sdu));
            && |b| == 12 + |sdu| % 0x1_0000 && b[12..] == sdu[..|sdu| % 0x1_0000]
            && b[0] == 12 && Has16(b, 1, (12 + |sdu|) % 0x1_0000) && b[3] == protocol
            && Has32(b, 4, p.sourceIp) && Has32(b, 8, p.destinationIp)
  {
    var e := Encapsulated(p, protocol, sdu);
    var b := PacketBytes(e);
    assert b == PacketHeader(e) + sdu[..|sdu| % 0x1_0000];
    HeaderFields(e, sdu[..|sdu| % 0x1_0000]);
    NumberAt(b, 1);
    LongNumberAt(b, 4);
    LongNumberAt(b, 8);
  }

}
