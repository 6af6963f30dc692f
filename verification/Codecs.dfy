/** The byte forms of the units that travel: TCP, UDP and ICMP inside IP, and ARP. */
module Codecs {
  import opened Bytes
  import opened Addressing
  import opened Transport
  import opened TcpSegments

  datatype Icmp = Icmp(kind: byte, code: byte, checksum: u16, identifier: u16, sequenceNumber: u16, payload: seq<byte>)

  datatype Arp = Arp(opcode: u16, senderMac: Mac, senderIp: u32, targetMac: Mac, targetIp: u32)

  /** An address negotiation message; it travels as UDP payload. */
  datatype Dhcp = Dhcp(opcode: byte, clientIp: u32, yourIp: u32)

  /** The fields of an IP object. */
  datatype Packet = Packet(
    headerLength: byte,
    totalLength: u16,
    protocol: byte,
    sourceIp: u32,
    destinationIp: u32,
    sdu: seq<byte>)

  datatype Option<T> = None | Some(value: T)

  const IP_PROTOCOL_ICMP: byte := 0x01
  const IP_PROTOCOL_TCP: byte := 0x06
  const IP_PROTOCOL_UDP: byte := 0x11
  const IP_HEADER_SIZE := 12
  const ICMP_HEADER_SIZE := 8
  const TCP_HEADER_SIZE := 18
  const UDP_HEADER_SIZE := 8
  const ARP_SIZE := 22
  const DHCP_SIZE := 9

  // Byte forms

  function TcpHeader(t: Tcp): (bytes: seq<byte>)
    ensures |bytes| == TCP_HEADER_SIZE
  {
    BigEndian(t.sourcePort, 2) + BigEndian(t.destinationPort, 2) + BigEndian(t.sequenceNumber, 4)
    + BigEndian(t.ackNumber, 4) + BigEndian(t.details, 2) + BigEndian(t.receiveWindow, 2) + BigEndian(t.checksum, 2)
  }

  function TcpBytes(t: Tcp): seq<byte> {
    TcpHeader(t) + t.payload
  }

  function UdpHeader(u: Udp): (bytes: seq<byte>)
    ensures |bytes| == UDP_HEADER_SIZE
  {
    BigEndian(u.sourcePort, 2) + BigEndian(u.destinationPort, 2) + BigEndian(u.length, 2) + BigEndian(u.checksum, 2)
  }

  function UdpBytes(u: Udp): seq<byte> {
    UdpHeader(u) + u.payload
  }

  function IcmpHeader(i: Icmp): (bytes: seq<byte>)
    ensures |bytes| == ICMP_HEADER_SIZE
  {
    [i.kind, i.code] + BigEndian(i.checksum, 2) + BigEndian(i.identifier, 2) + BigEndian(i.sequenceNumber, 2)
  }

  function IcmpBytes(i: Icmp): seq<byte> {
    IcmpHeader(i) + i.payload
  }

  function ArpBytes(a: Arp): (bytes: seq<byte>)
    ensures |bytes| == ARP_SIZE
  {
    BigEndian(a.opcode, 2) + a.senderMac + BigEndian(a.senderIp, 4) + a.targetMac + BigEndian(a.targetIp, 4)
  }

  function DhcpBytes(d: Dhcp): (bytes: seq<byte>)
    ensures |bytes| == DHCP_SIZE
  {
    [d.opcode] + BigEndian(d.clientIp, 4) + BigEndian(d.yourIp, 4)
  }

  function PacketHeader(p: Packet): (bytes: seq<byte>)
    ensures |bytes| == IP_HEADER_SIZE
  {
    [p.headerLength] + BigEndian(p.totalLength, 2) + [p.protocol] + BigEndian(p.sourceIp, 4)
    + BigEndian(p.destinationIp, 4)
  }

  /** The payload length goes through 16 bits on its way into a frame. */
  function PacketBytes(p: Packet): seq<byte> {
    PacketHeader(p) + p.sdu[..|p.sdu| % 0x1_0000]
  }

  // Reading them

  function Number16(bytes: seq<byte>): (x: u16)
    requires |bytes| == 2
    ensures BigEndian(x, 2) == bytes
  {
    FromBigEndianRoundTrip(bytes);
    assert Pow256(1) == 256;
    FromBigEndian(bytes)
  }

  function Number32(bytes: seq<byte>): (x: u32)
    requires |bytes| == 4
    ensures BigEndian(x, 4) == bytes
  {
    FromBigEndianRoundTrip(bytes);
    PowerOfFour();
    FromBigEndian(bytes)
  }

  lemma PowerOfFour()
    ensures Pow256(2) == 0x1_0000 && Pow256(4) == 0x1_0000_0000
  {
    assert Pow256(1) == 256;
    assert Pow256(3) == 0x100_0000;
  }

  function TcpFrom(b: seq<byte>): Tcp
    requires |b| >= TCP_HEADER_SIZE
  {
    Tcp(Number16(b[0..2]), Number16(b[2..4]), Number32(b[4..8]), Number32(b[8..12]), Number16(b[12..14]),
        Number16(b[14..16]), Number16(b[16..18]), b[18..])
  }

  function UdpFrom(b: seq<byte>): Udp
    requires |b| >= UDP_HEADER_SIZE
  {
    Udp(Number16(b[0..2]), Number16(b[2..4]), Number16(b[4..6]), Number16(b[6..8]), b[8..])
  }

  function IcmpFrom(b: seq<byte>): Icmp
    requires |b| >= ICMP_HEADER_SIZE
  {
    Icmp(b[0], b[1], Number16(b[2..4]), Number16(b[4..6]), Number16(b[6..8]), b[8..])
  }

  function ArpFrom(b: seq<byte>): Arp
    requires |b| >= ARP_SIZE
  {
    Arp(Number16(b[0..2]), b[2..8], Number32(b[8..12]), b[12..18], Number32(b[18..22]))
  }

  function DhcpFrom(b: seq<byte>): Dhcp
    requires |b| >= DHCP_SIZE
  {
    Dhcp(b[0], Number32(b[1..5]), Number32(b[5..9]))
  }

  /** The fields, and as many payload bytes from the thirteenth on as the two lengths say. None where the
      source reads past the bytes or reserves a negative size. */
  function PacketFrom(b: seq<byte>): Option<Packet> {
    if |b| < IP_HEADER_SIZE then None
    else
      var length := Number16(b[1..3]) - b[0];
      if 0 <= length <= |b| - IP_HEADER_SIZE then
        Some(Packet(b[0], Number16(b[1..3]), b[3], Number32(b[4..8]), Number32(b[8..12]), b[12..12 + length]))
      else None
  }

  // Round trips

  lemma Number16OfBigEndian(x: u16)
    ensures Number16(BigEndian(x, 2)) == x
  {
    PowerOfFour();
    BigEndianRoundTrip(x, 2);
  }

  lemma Number32OfBigEndian(x: u32)
    ensures Number32(BigEndian(x, 4)) == x
  {
    PowerOfFour();
    BigEndianRoundTrip(x, 4);
  }

  lemma TcpRoundTrip(t: Tcp)
    ensures TcpFrom(TcpBytes(t)) == t
  {
    var b := TcpBytes(t);
    assert b[0..2] == BigEndian(t.sourcePort, 2);
    assert b[2..4] == BigEndian(t.destinationPort, 2);
    assert b[4..8] == BigEndian(t.sequenceNumber, 4);
    assert b[8..12] == BigEndian(t.ackNumber, 4);
    assert b[12..14] == BigEndian(t.details, 2);
    assert b[14..16] == BigEndian(t.receiveWindow, 2);
    assert b[16..18] == BigEndian(t.checksum, 2);
    Number16OfBigEndian(t.sourcePort);
    Number16OfBigEndian(t.destinationPort);
    Number32OfBigEndian(t.sequenceNumber);
    Number32OfBigEndian(t.ackNumber);
    Number16OfBigEndian(t.details);
    Number16OfBigEndian(t.receiveWindow);
    Number16OfBigEndian(t.checksum);
  }

  lemma TcpBytesRoundTrip(b: seq<byte>)
    requires |b| >= TCP_HEADER_SIZE
    ensures TcpBytes(TcpFrom(b)) == b
  {
    assert b == b[0..2] + b[2..4] + b[4..8] + b[8..12] + b[12..14] + b[14..16] + b[16..18] + b[18..];
  }

  lemma UdpRoundTrip(u: Udp)
    ensures UdpFrom(UdpBytes(u)) == u
  {
    var b := UdpBytes(u);
    assert b[0..2] == BigEndian(u.sourcePort, 2);
    assert b[2..4] == BigEndian(u.destinationPort, 2);
    assert b[4..6] == BigEndian(u.length, 2);
    assert b[6..8] == BigEndian(u.checksum, 2);
    Number16OfBigEndian(u.sourcePort);
    Number16OfBigEndian(u.destinationPort);
    Number16OfBigEndian(u.length);
    Number16OfBigEndian(u.checksum);
  }

  lemma UdpBytesRoundTrip(b: seq<byte>)
    requires |b| >= UDP_HEADER_SIZE
    ensures UdpBytes(UdpFrom(b)) == b
  {
    assert b == b[0..2] + b[2..4] + b[4..6] + b[6..8] + b[8..];
  }

  lemma IcmpRoundTrip(i: Icmp)
    ensures IcmpFrom(IcmpBytes(i)) == i
  {
    var b := IcmpBytes(i);
    assert b[2..4] == BigEndian(i.checksum, 2);
    assert b[4..6] == BigEndian(i.identifier, 2);
    assert b[6..8] == BigEndian(i.sequenceNumber, 2);
    Number16OfBigEndian(i.checksum);
    Number16OfBigEndian(i.identifier);
    Number16OfBigEndian(i.sequenceNumber);
  }

  lemma IcmpBytesRoundTrip(b: seq<byte>)
    requires |b| >= ICMP_HEADER_SIZE
    ensures IcmpBytes(IcmpFrom(b)) == b
  {
    assert b == [b[0], b[1]] + b[2..4] + b[4..6] + b[6..8] + b[8..];
  }

  lemma ArpRoundTrip(a: Arp)
    ensures ArpFrom(ArpBytes(a)) == a
  {
    var b := ArpBytes(a);
    assert b[0..2] == BigEndian(a.opcode, 2);
    assert b[2..8] == a.senderMac;
    assert b[8..12] == BigEndian(a.senderIp, 4);
    assert b[12..18] == a.targetMac;
    assert b[18..22] == BigEndian(a.targetIp, 4);
    Number16OfBigEndian(a.opcode);
    Number32OfBigEndian(a.senderIp);
    Number32OfBigEndian(a.targetIp);
  }

  lemma ArpBytesRoundTrip(b: seq<byte>)
    requires |b| == ARP_SIZE
    ensures ArpBytes(ArpFrom(b)) == b
  {
    assert b == b[0..2] + b[2..8] + b[8..12] + b[12..18] + b[18..22];
  }

  lemma DhcpRoundTrip(d: Dhcp)
    ensures DhcpFrom(DhcpBytes(d)) == d
  {
    var b := DhcpBytes(d);
    assert b[1..5] == BigEndian(d.clientIp, 4);
    assert b[5..9] == BigEndian(d.yourIp, 4);
    Number32OfBigEndian(d.clientIp);
    Number32OfBigEndian(d.yourIp);
  }

  lemma DhcpBytesRoundTrip(b: seq<byte>)
    requires |b| == DHCP_SIZE
    ensures DhcpBytes(DhcpFrom(b)) == b
  {
    assert b == [b[0]] + b[1..5] + b[5..9];
  }

  // Two layers

  /** What encapsulating a unit does to the fields of an IP object. */
  function Encapsulated(p: Packet, protocol: byte, sdu: seq<byte>): Packet {
    p.(protocol := protocol, totalLength := (p.headerLength + |sdu|) % 0x1_0000, sdu := sdu)
  }

  /** What comes out of a frame: the packet if its payload is below 65524 bytes, nothing if what is left of
      the payload modulo 2^16 is not below that, and else a packet with only what is left. */
  lemma EncapsulationOutcome(p: Packet, protocol: byte, sdu: seq<byte>, e: Packet, rest: nat)
    requires p.headerLength == IP_HEADER_SIZE && e == Encapsulated(p, protocol, sdu) && rest == |sdu| % 0x1_0000
    ensures PacketFrom(PacketBytes(e)) == if rest < 65524 then Some(e.(sdu := sdu[..rest])) else None
  {
    assert PacketBytes(e) == PacketHeader(e) + sdu[..rest];
    HeaderThenRest(e, sdu[..rest]);
    SumRemainder(|sdu|, rest);
    if rest < 65524 {
      assert sdu[..rest][..rest] == sdu[..rest];
    }
  }

  lemma SumRemainder(n: nat, rest: nat)
    requires rest == n % 0x1_0000
    ensures (IP_HEADER_SIZE + n) % 0x1_0000 == if rest < 65524 then IP_HEADER_SIZE + rest else rest - 65524
  {
  }

  /** Decoding a header with bytes after it. */
  lemma HeaderThenRest(p: Packet, rest: seq<byte>)
    ensures var length := p.totalLength as int - p.headerLength as int;
            PacketFrom(PacketHeader(p) + rest)
            == if 0 <= length <= |rest| then Some(p.(sdu := rest[..length])) else None
  {
    HeaderFields(p, rest);
    var b := PacketHeader(p) + rest;
    var length := p.totalLength as int - p.headerLength as int;
    if 0 <= length <= |rest| {
      assert b[12..12 + length] == rest[..length];
    }
  }

  lemma HeaderFields(p: Packet, rest: seq<byte>)
    ensures var b := PacketHeader(p) + rest;
            && b[0] == p.headerLength && Number16(b[1..3]) == p.totalLength && b[3] == p.protocol
            && Number32(b[4..8]) == p.sourceIp && Number32(b[8..12]) == p.destinationIp
  {
    var b := PacketHeader(p) + rest;
    assert b[1..3] == BigEndian(p.totalLength, 2);
    assert b[4..8] == BigEndian(p.sourceIp, 4);
    assert b[8..12] == BigEndian(p.destinationIp, 4);
    Number16OfBigEndian(p.totalLength);
    Number32OfBigEndian(p.sourceIp);
    Number32OfBigEndian(p.destinationIp);
  }

  /** A packet comes out of a frame as it went in exactly when its total length fits 16 bits. */
  lemma PacketRoundTripIff(p: Packet, protocol: byte, sdu: seq<byte>, e: Packet)
    requires p.headerLength == IP_HEADER_SIZE && e == Encapsulated(p, protocol, sdu)
    ensures PacketFrom(PacketBytes(e)) == Some(e) <==> IP_HEADER_SIZE + |sdu| < TWO_TO_THE_16
  {
    var rest := |sdu| % 0x1_0000;
    EncapsulationOutcome(p, protocol, sdu, e, rest);
    if |sdu| < 0x1_0000 {
      assert rest == |sdu| && sdu[..rest] == sdu;
    }
  }

  /** Bytes with the usual header length and the right total length are what their decoding encodes to. */
  lemma PacketBytesRoundTrip(b: seq<byte>)
    requires |b| >= IP_HEADER_SIZE && b[0] == IP_HEADER_SIZE && Number16(b[1..3]) == |b|
    ensures PacketFrom(b).Some? && PacketBytes(PacketFrom(b).value) == b
  {
    var p := PacketFrom(b).value;
    assert p.sdu == b[12..];
    assert p.sdu[..|p.sdu| % 0x1_0000] == p.sdu;
    assert b == [b[0]] + b[1..3] + [b[3]] + b[4..8] + b[8..12] + b[12..];
  }

  /** The TCP segment in a frame, as a TCP process reads it. */
  function TcpIn(frame: seq<byte>): Option<Tcp> {
    var p := PacketFrom(frame);
    if p.Some? && |p.value.sdu| >= TCP_HEADER_SIZE then Some(TcpFrom(p.value.sdu)) else None
  }

  function UdpIn(frame: seq<byte>): Option<Udp> {
    var p := PacketFrom(frame);
    if p.Some? && |p.value.sdu| >= UDP_HEADER_SIZE then Some(UdpFrom(p.value.sdu)) else None
  }

  function IcmpIn(frame: seq<byte>): Option<Icmp> {
    var p := PacketFrom(frame);
    if p.Some? && |p.value.sdu| >= ICMP_HEADER_SIZE then Some(IcmpFrom(p.value.sdu)) else None
  }

  /** If a shorter payload comes out, the unit in it is shorter too. */
  lemma WhatComesOut(p: Packet, protocol: byte, sdu: seq<byte>, e: Packet)
    requires p.headerLength == IP_HEADER_SIZE && e == Encapsulated(p, protocol, sdu)
    ensures IP_HEADER_SIZE + |sdu| < TWO_TO_THE_16 ==> PacketFrom(PacketBytes(e)) == Some(e)
    ensures IP_HEADER_SIZE + |sdu| >= TWO_TO_THE_16 && PacketFrom(PacketBytes(e)).Some? ==>
              |PacketFrom(PacketBytes(e)).value.sdu| < |sdu|
  {
    PacketRoundTripIff(p, protocol, sdu, e);
    EncapsulationOutcome(p, protocol, sdu, e, |sdu| % 0x1_0000);
  }

  lemma TcpSurvivesIff(p: Packet, t: Tcp)
    requires p.headerLength == IP_HEADER_SIZE
    ensures TcpIn(PacketBytes(Encapsulated(p, IP_PROTOCOL_TCP, TcpBytes(t)))) == Some(t)
            <==> IP_HEADER_SIZE + TCP_HEADER_SIZE + |t.payload| < TWO_TO_THE_16
    ensures PacketBytes(Encapsulated(p, IP_PROTOCOL_TCP, TcpBytes(t)))[3] == 6
  {
    WhatComesOut(p, IP_PROTOCOL_TCP, TcpBytes(t), Encapsulated(p, IP_PROTOCOL_TCP, TcpBytes(t)));
    TcpRoundTrip(t);
  }

  /** Every segment of a file cut for frames of up to 65535 bytes comes out of its frame as it went in. */
  lemma FileSegmentsSurvive(p: Packet, segs: seq<Tcp>, maximum: nat, i: nat)
    requires p.headerLength == IP_HEADER_SIZE && FullSegments(segs, maximum) && i < |segs|
    requires IP_HEADER_SIZE + TCP_HEADER_SIZE + maximum < TWO_TO_THE_16
    ensures TcpIn(PacketBytes(Encapsulated(p, IP_PROTOCOL_TCP, TcpBytes(segs[i])))) == Some(segs[i])
  {
    assert HasLength(segs[i], if i < |segs| - 1 then maximum else 1, maximum);
    TcpSurvivesIff(p, segs[i]);
  }

  lemma UdpSurvivesIff(p: Packet, u: Udp)
    requires p.headerLength == IP_HEADER_SIZE
    ensures UdpIn(PacketBytes(Encapsulated(p, IP_PROTOCOL_UDP, UdpBytes(u)))) == Some(u)
            <==> IP_HEADER_SIZE + UDP_HEADER_SIZE + |u.payload| < TWO_TO_THE_16
    ensures PacketBytes(Encapsulated(p, IP_PROTOCOL_UDP, UdpBytes(u)))[3] == 17
  {
    WhatComesOut(p, IP_PROTOCOL_UDP, UdpBytes(u), Encapsulated(p, IP_PROTOCOL_UDP, UdpBytes(u)));
    UdpRoundTrip(u);
  }

  lemma IcmpSurvivesIff(p: Packet, i: Icmp)
    requires p.headerLength == IP_HEADER_SIZE
    ensures IcmpIn(PacketBytes(Encapsulated(p, IP_PROTOCOL_ICMP, IcmpBytes(i)))) == Some(i)
            <==> IP_HEADER_SIZE + ICMP_HEADER_SIZE + |i.payload| < TWO_TO_THE_16
    ensures PacketBytes(Encapsulated(p, IP_PROTOCOL_ICMP, IcmpBytes(i)))[3] == 1
  {
    WhatComesOut(p, IP_PROTOCOL_ICMP, IcmpBytes(i), Encapsulated(p, IP_PROTOCOL_ICMP, IcmpBytes(i)));
    IcmpRoundTrip(i);
  }

  /** The single-byte reads that sort frames see the fields they are meant to see: `get_IP_protocol`,
      `get_ping_type`, and `get_ARP_opcode` for opcodes below 256. */
  lemma PeeksReadFields(p: Packet, i: Icmp, a: Arp)
    ensures PacketBytes(p)[3] == p.protocol
    ensures p.sdu == IcmpBytes(i) && |p.sdu| < TWO_TO_THE_16 ==> PacketBytes(p)[IP_HEADER_SIZE] == i.kind
    ensures ArpBytes(a)[1] == a.opcode % 0x100
  {
    assert BigEndian(a.opcode, 2)[1] == a.opcode % 256;
  }
}

/** The objects that hold packets and frames, and the reading functions. */
module Packets {
  import opened Bytes
  import opened Addressing
  import opened Transport
  import opened Codecs

  /** `x >> (8 * n)` */
  function ShiftBytes(x: nat, n: nat): nat {
    if n == 0 then x else ShiftBytes(x, n - 1) / 0x100
  }

  /** The loop that pushes a number byte by byte, from `n - 1` down to 0. */
  method PushBigEndian(bytes: seq<byte>, x: nat, n: nat) returns (pushed: seq<byte>)
    ensures pushed == bytes + BigEndian(x, n)
  {
    pushed := bytes;
    for i := n downto 0
      invariant pushed == bytes + BigEndian(ShiftBytes(x, i), n - i)
    {
      pushed := pushed + [ShiftBytes(x, i) % 0x100];
    }
  }

  method PushAll(bytes: seq<byte>, from: seq<byte>, start: nat, end: nat) returns (pushed: seq<byte>)
    requires start <= end <= |from|
    ensures pushed == bytes + from[start..end]
  {
    pushed := bytes;
    for i := start to end
      invariant pushed == bytes + from[start..i]
    {
      pushed := pushed + [from[i]];
    }
  }

  /** The header fields of a segment, pushed into a cleared payload. */
  method PushTcpHeader(t: Tcp) returns (pushed: seq<byte>)
    ensures pushed == TcpHeader(t)
  {
    pushed := PushBigEndian([], t.sourcePort, 2);
    assert pushed == BigEndian(t.sourcePort, 2);
    pushed := PushBigEndian(pushed, t.destinationPort, 2);
    pushed := PushBigEndian(pushed, t.sequenceNumber, 4);
    pushed := PushBigEndian(pushed, t.ackNumber, 4);
    pushed := PushBigEndian(pushed, t.details, 2);
    pushed := PushBigEndian(pushed, t.receiveWindow, 2);
    pushed := PushBigEndian(pushed, t.checksum, 2);
  }

  class Ip {
    var headerLength: byte
    var totalLength: u16
    var protocol: byte
    var sourceIp: u32
    var destinationIp: u32
    var sdu: seq<byte>

    function View(): Packet
      reads this
    {
      Packet(headerLength, totalLength, protocol, sourceIp, destinationIp, sdu)
    }

    /** Only the header length and the empty payload are set. */
    constructor ()
      ensures headerLength == IP_HEADER_SIZE && sdu == []
    {
      headerLength := IP_HEADER_SIZE;
      sdu := [];
    }

    constructor FromBytes(b: seq<byte>)
      requires PacketFrom(b).Some?
      ensures PacketFrom(b) == Some(View())
    {
      QuadIsNumber(b, 4);
      QuadIsNumber(b, 8);
      headerLength := b[0];
      totalLength := Pair(b, 1);
      protocol := b[3];
      sourceIp := CreateIp(b[4], b[5], b[6], b[7]);
      destinationIp := CreateIp(b[8], b[9], b[10], b[11]);
      new;
      sdu := PushAll([], b, 12, 12 + (totalLength - headerLength));
      assert sdu == PacketFrom(b).value.sdu && totalLength == PacketFrom(b).value.totalLength;
    }

    method SetSourceIp(ip: u32)
      modifies this`sourceIp
      ensures View() == old(View()).(sourceIp := ip)
    {
      sourceIp := ip;
    }

    method SetDestinationIp(ip: u32)
      modifies this`destinationIp
      ensures View() == old(View()).(destinationIp := ip)
    {
      destinationIp := ip;
    }

    method EncapTcp(t: Tcp)
      modifies this`protocol, this`totalLength, this`sdu
      ensures View() == Encapsulated(old(View()), IP_PROTOCOL_TCP, TcpBytes(t)) && protocol == 6
    {
      protocol := IP_PROTOCOL_TCP;
      sdu := PushTcpHeader(t);
      assert t.payload[0..|t.payload|] == t.payload;
      sdu := PushAll(sdu, t.payload, 0, |t.payload|);
      totalLength := (headerLength + |sdu|) % 0x1_0000;
    }

    method EncapUdp(u: Udp)
      modifies this`protocol, this`totalLength, this`sdu
      ensures View() == Encapsulated(old(View()), IP_PROTOCOL_UDP, UdpBytes(u)) && protocol == 17
    {
      protocol := IP_PROTOCOL_UDP;
      sdu := PushBigEndian([], u.sourcePort, 2);
      assert sdu == BigEndian(u.sourcePort, 2);
      sdu := PushBigEndian(sdu, u.destinationPort, 2);
      sdu := PushBigEndian(sdu, u.length, 2);
      sdu := PushBigEndian(sdu, u.checksum, 2);
      assert u.payload[0..|u.payload|] == u.payload;
      sdu := PushAll(sdu, u.payload, 0, |u.payload|);
      totalLength := (headerLength + |sdu|) % 0x1_0000;
    }

    method EncapIcmp(i: Icmp)
      modifies this`protocol, this`totalLength, this`sdu
      ensures View() == Encapsulated(old(View()), IP_PROTOCOL_ICMP, IcmpBytes(i)) && protocol == 1
    {
      protocol := IP_PROTOCOL_ICMP;
      sdu := [i.kind, i.code];
      sdu := PushBigEndian(sdu, i.checksum, 2);
      sdu := PushBigEndian(sdu, i.identifier, 2);
      sdu := PushBigEndian(sdu, i.sequenceNumber, 2);
      assert i.payload[0..|i.payload|] == i.payload;
      sdu := PushAll(sdu, i.payload, 0, |i.payload|);
      totalLength := (headerLength + |sdu|) % 0x1_0000;
    }
  }

  const MPDU_IP_TYPE: u16 := 0x0800
  const MPDU_ARP_TYPE: u16 := 0x0806

  class Mpdu {
    var sourceMac: seq<byte>
    var destinationMac: seq<byte>
    var sduType: u16
    var sdu: seq<byte>

    constructor ()
      ensures sourceMac == [] && destinationMac == [] && sdu == []
    {
      sourceMac, destinationMac, sdu := [], [], [];
    }

    /** A separate object with the same contents. */
    method Copy() returns (copy: Mpdu)
      ensures fresh(copy) && copy.sourceMac == sourceMac && copy.destinationMac == destinationMac
      ensures copy.sduType == sduType && copy.sdu == sdu
    {
      copy := new Mpdu();
      copy.sourceMac, copy.destinationMac, copy.sduType, copy.sdu := sourceMac, destinationMac, sduType, sdu;
    }

    method EncapIp(ip: Ip)
      modifies this`sduType, this`sdu
      ensures sduType == 0x0800 && sdu == PacketBytes(ip.View())
    {
      sduType := MPDU_IP_TYPE;
      sdu := [ip.headerLength];
      sdu := PushBigEndian(sdu, ip.totalLength, 2);
      sdu := sdu + [ip.protocol];
      sdu := PushBigEndian(sdu, ip.sourceIp, 4);
      sdu := PushBigEndian(sdu, ip.destinationIp, 4);
      sdu := PushAll(sdu, ip.sdu, 0, |ip.sdu| % 0x1_0000);
    }

    method EncapArp(a: Arp)
      modifies this`sduType, this`sdu
      ensures sduType == 0x0806 && sdu == ArpBytes(a)
    {
      sduType := MPDU_ARP_TYPE;
      sdu := PushBigEndian([], a.opcode, 2);
      assert sdu == BigEndian(a.opcode, 2) && a.senderMac[0..6] == a.senderMac && a.targetMac[0..6] == a.targetMac;
      sdu := PushAll(sdu, a.senderMac, 0, 6);
      sdu := PushBigEndian(sdu, a.senderIp, 4);
      sdu := PushAll(sdu, a.targetMac, 0, 6);
      sdu := PushBigEndian(sdu, a.targetIp, 4);
    }
  }

  /** Each byte is shifted in after the ones before it. */
  function CreateIp(b1: byte, b2: byte, b3: byte, b4: byte): u32 {
    ((b1 as int * 0x100 + b2 as int) * 0x100 + b3 as int) * 0x100 + b4 as int
  }

  lemma PairIsNumber(b: seq<byte>, i: nat)
    requires i + 2 <= |b|
    ensures Number16(b[i..i + 2]) == b[i] as int * 0x100 + b[i + 1] as int
  {
    var pair := b[i..i + 2];
    assert pair[..1] == [b[i]];
    assert FromBigEndian([b[i]]) == b[i];
  }

  lemma QuadIsNumber(b: seq<byte>, i: nat)
    requires i + 4 <= |b|
    ensures Number32(b[i..i + 4]) == CreateIp(b[i], b[i + 1], b[i + 2], b[i + 3])
  {
    var quad := b[i..i + 4];
    assert quad[..3][..2] == quad[..2] == b[i..i + 2];
    PairIsNumber(b, i);
    assert FromBigEndian(quad[..3]) == FromBigEndian(quad[..2]) * 0x100 + b[i + 2];
  }

  method GenerateTcp(b: seq<byte>) returns (t: Tcp)
    requires |b| >= TCP_HEADER_SIZE
    ensures t == TcpFrom(b)
  {
    QuadIsNumber(b, 4);
    QuadIsNumber(b, 8);
    var payload := PushAll([], b, TCP_HEADER_SIZE, |b|);
    t := Tcp(Pair(b, 0), Pair(b, 2), CreateIp(b[4], b[5], b[6], b[7]), CreateIp(b[8], b[9], b[10], b[11]),
      Pair(b, 12), Pair(b, 14), Pair(b, 16), payload);
  }

  function Pair(b: seq<byte>, i: nat): (x: u16)
    requires i + 2 <= |b|
    ensures x == Number16(b[i..i + 2])
  {
    PairIsNumber(b, i);
    b[i] as int * 0x100 + b[i + 1] as int
  }

  method GenerateUdp(b: seq<byte>) returns (u: Udp)
    requires |b| >= UDP_HEADER_SIZE
    ensures u == UdpFrom(b)
  {
    var payload := PushAll([], b, UDP_HEADER_SIZE, |b|);
    u := Udp(Pair(b, 0), Pair(b, 2), Pair(b, 4), Pair(b, 6), payload);
  }

  method GenerateIcmp(b: seq<byte>) returns (i: Icmp)
    requires |b| >= ICMP_HEADER_SIZE
    ensures i == IcmpFrom(b)
  {
    var payload := PushAll([], b, ICMP_HEADER_SIZE, |b|);
    i := Icmp(b[0], b[1], Pair(b, 2), Pair(b, 4), Pair(b, 6), payload);
  }

  /** The addresses are read in loops that add each byte shifted to its place. */
  method ReadAddress(b: seq<byte>, start: nat) returns (ip: u32)
    requires start + 4 <= |b|
    ensures ip == Number32(b[start..start + 4])
  {
    QuadIsNumber(b, start);
    ip := 0;
    for i := start to start + 4
      invariant ip == Placed(b, start, i - start)
    {
      ip := ip + b[i] * Place(start + 3 - i);
    }
  }

  /** `1 << (8 * k)` for a byte's place in a word. */
  function Place(k: nat): nat {
    if k == 0 then 1 else if k == 1 then 0x100 else if k == 2 then 0x1_0000 else 0x100_0000
  }

  function Placed(b: seq<byte>, start: nat, n: nat): (x: u32)
    requires n <= 4 && start + n <= |b|
  {
    (if n > 0 then b[start] as int * 0x100_0000 else 0) + (if n > 1 then b[start + 1] as int * 0x1_0000 else 0)
    + (if n > 2 then b[start + 2] as int * 0x100 else 0) + (if n > 3 then b[start + 3] as int else 0)
  }

  method GenerateArp(b: seq<byte>) returns (a: Arp)
    requires |b| >= ARP_SIZE
    ensures a == ArpFrom(b)
  {
    var senderMac := PushAll([], b, 2, 8);
    var senderIp := ReadAddress(b, 8);
    var targetMac := PushAll([], b, 12, 18);
    var targetIp := ReadAddress(b, 18);
    a := Arp(Pair(b, 0), senderMac, senderIp, targetMac, targetIp);
  }

  function GenerateDhcp(b: seq<byte>): (d: Dhcp)
    requires |b| >= DHCP_SIZE
    ensures d == DhcpFrom(b)
  {
    QuadIsNumber(b, 1);
    QuadIsNumber(b, 5);
    Dhcp(b[0], CreateIp(b[1], b[2], b[3], b[4]), CreateIp(b[5], b[6], b[7], b[8]))
  }

  /** The payload pushed by client and server alike. */
  method PushDhcp(d: Dhcp) returns (payload: seq<byte>)
    ensures payload == DhcpBytes(d)
  {
    payload := PushBigEndian([d.opcode], d.clientIp, 4);
    payload := PushBigEndian(payload, d.yourIp, 4);
  }

  /** How a segment is sent: into an IP object with its addresses, and that into a new frame. */
  method FrameTcp(t: Tcp, sourceIp: u32, destinationIp: u32, sourceMac: Mac, destinationMac: Mac) returns (frame: Mpdu)
    ensures fresh(frame) && frame.sduType == 0x0800 && |frame.sdu| > 3 && frame.sdu[3] == 6
    ensures frame.sourceMac == sourceMac && frame.destinationMac == destinationMac
    ensures TcpIn(frame.sdu) == Some(t) <==> IP_HEADER_SIZE + TCP_HEADER_SIZE + |t.payload| < TWO_TO_THE_16
    ensures TcpIn(frame.sdu) == Some(t) ==>
      PacketFrom(frame.sdu).value.sourceIp == sourceIp && PacketFrom(frame.sdu).value.destinationIp == destinationIp
  {
    var packet := new Ip();
    packet.SetSourceIp(sourceIp);
    packet.SetDestinationIp(destinationIp);
    ghost var before := packet.View();
    packet.EncapTcp(t);
    frame := new Mpdu();
    frame.EncapIp(packet);
    frame.sourceMac, frame.destinationMac := sourceMac, destinationMac;
    TcpSurvivesIff(before, t);
    WhatComesOut(before, IP_PROTOCOL_TCP, TcpBytes(t), Encapsulated(before, IP_PROTOCOL_TCP, TcpBytes(t)));
  }

  /** How it is read again. */
  method ReadTcp(frame: Mpdu) returns (t: Tcp)
    requires TcpIn(frame.sdu).Some?
    ensures TcpIn(frame.sdu) == Some(t)
  {
    var packet := new Ip.FromBytes(frame.sdu);
    t := GenerateTcp(packet.sdu);
  }
}
