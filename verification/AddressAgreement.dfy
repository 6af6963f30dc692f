/** What the DHCP server and the hosts send each other, and the values their state goes through. */
module AddressMessages {
  import opened Bytes
  import opened Addressing
  import opened Codecs

  /** A frame on the network, decoded. `dstMac` is empty where the server answers from an entry it never filled. */
  datatype Message =
    | DhcpMessage(srcMac: Mac, dstMac: seq<byte>, srcPort: u16, dstPort: u16, dhcp: Dhcp)
    | ArpMessage(srcMac: Mac, dstMac: seq<byte>, arp: Arp)

  const DHCP_NO_ENTRY: byte := 0
  const DHCP_DISCOVER: byte := 1
  const DHCP_OFFER: byte := 2
  const DHCP_REQUEST: byte := 3
  const DHCP_ACK: byte := 5
  const DHCP_NACK: byte := 6
  const BOOTP_SERVER_PORT: u16 := 67
  const BOOTP_CLIENT_PORT: u16 := 68
  const ARP_REQUEST: u16 := 0x0001
  const ARP_REPLY: u16 := 0x0002

  const FIRST_MAC: Mac := UniformMac(0x11)
  const SECOND_MAC: Mac := UniformMac(0x22)
  const FIRST_IP: u32 := 0x6F6F6F6F
  const SECOND_IP: u32 := 0xDEDEDEDE
}

/** The DHCP server of networking_devices.cpp. */
module DhcpService {
  import opened Bytes
  import opened Addressing
  import opened Codecs
  import opened Packets
  import opened AddressMessages

  datatype Entry = Entry(mac: seq<byte>, ip: u32, currentOpcode: byte)

  /** The last entry of a MAC, or an empty one whose address is whatever `unset` happens to be. */
  function FindEntry(table: seq<Entry>, mac: Mac, unset: u32): Entry {
    if table == [] then Entry([], unset, DHCP_NO_ENTRY)
    else if table[|table| - 1].mac == mac then table[|table| - 1]
    else FindEntry(table[..|table| - 1], mac, unset)
  }

  function AddressFor(mac: Mac, unset: u32): u32 {
    if mac == FIRST_MAC then FIRST_IP else if mac == SECOND_MAC then SECOND_IP else unset
  }

  /** The entry the server answers from. */
  function EntryFor(table: seq<Entry>, mac: Mac, opcode: byte, unset: u32): Entry {
    var entry := FindEntry(table, mac, unset);
    if opcode == DHCP_DISCOVER && entry.currentOpcode == DHCP_NO_ENTRY
    then Entry(mac, AddressFor(mac, entry.ip), DHCP_OFFER)
    else entry
  }

  function TableAfter(table: seq<Entry>, mac: Mac, opcode: byte, unset: u32): seq<Entry> {
    if opcode == DHCP_DISCOVER && FindEntry(table, mac, unset).currentOpcode == DHCP_NO_ENTRY
    then table + [EntryFor(table, mac, opcode, unset)] else table
  }

  function Answer(entry: Entry, message: Dhcp): Option<Dhcp> {
    if message.opcode == DHCP_DISCOVER then Some(message.(opcode := DHCP_OFFER, yourIp := entry.ip))
    else if message.opcode == DHCP_REQUEST then
      if message.clientIp == entry.ip then Some(message.(opcode := DHCP_ACK))
      else Some(message.(opcode := DHCP_NACK, yourIp := entry.ip))
    else None
  }

  function ServerReply(gwMac: Mac, table: seq<Entry>, mac: Mac, message: Dhcp, unset: u32): Option<Message> {
    var entry := EntryFor(table, mac, message.opcode, unset);
    var answer := Answer(entry, message);
    if answer.None? then None
    else Some(DhcpMessage(gwMac, entry.mac, BOOTP_SERVER_PORT, BOOTP_CLIENT_PORT, answer.value))
  }

  class DhcpServer {
    var table: seq<Entry>
    const gwMac: Mac

    constructor (mac: Mac)
      ensures table == [] && gwMac == mac
    {
      table, gwMac := [], mac;
    }

    /** The loop runs to the end, so a later entry replaces an earlier one. */
    method GetEntry(mac: Mac, unset: u32) returns (result: Entry)
      ensures result == FindEntry(table, mac, unset)
    {
      result := Entry([], unset, DHCP_NO_ENTRY);
      for i := 0 to |table|
        invariant result == FindEntry(table[..i], mac, unset)
      {
        assert table[..i + 1][..i] == table[..i];
        if table[i].mac == mac {
          result := table[i];
        }
      }
      assert table[..|table|] == table;
    }

    /** One turn of `run`. */
    method HandleFrame(mac: Mac, received: Dhcp, unset: u32) returns (reply: Option<Message>)
      modifies this`table
      ensures table == TableAfter(old(table), mac, received.opcode, unset)
      ensures reply == ServerReply(gwMac, old(table), mac, received, unset)
    {
      assert CreateIp(111, 111, 111, 111) == FIRST_IP && CreateIp(222, 222, 222, 222) == SECOND_IP;
      var entry := GetEntry(mac, unset);
      var message := received;
      if message.opcode == DHCP_DISCOVER {
        if entry.currentOpcode == DHCP_NO_ENTRY {
          entry := entry.(mac := mac);
          if mac == UniformMac(0x11) {
            entry := entry.(ip := CreateIp(111, 111, 111, 111));
          } else if mac == UniformMac(0x22) {
            entry := entry.(ip := CreateIp(222, 222, 222, 222));
          }
          entry := entry.(currentOpcode := DHCP_OFFER);
          table := table + [entry];
        }
        message := message.(opcode := DHCP_OFFER, yourIp := entry.ip);
        reply := Some(DhcpMessage(gwMac, entry.mac, BOOTP_SERVER_PORT, BOOTP_CLIENT_PORT, message));
      } else if message.opcode == DHCP_REQUEST {
        if message.clientIp == entry.ip {
          message := message.(opcode := DHCP_ACK);
        } else {
          message := message.(opcode := DHCP_NACK, yourIp := entry.ip);
        }
        reply := Some(DhcpMessage(gwMac, entry.mac, BOOTP_SERVER_PORT, BOOTP_CLIENT_PORT, message));
      } else {
        reply := None;
      }
    }
  }

  /** For any table: what is found is the last entry of the MAC. */
  lemma {:induction false} FoundIsLast(table: seq<Entry>, mac: Mac, unset: u32, i: nat)
    requires i < |table| && table[i].mac == mac && forall j :: i < j < |table| ==> table[j].mac != mac
    ensures FindEntry(table, mac, unset) == table[i]
  {
    if i < |table| - 1 {
      FoundIsLast(table[..|table| - 1], mac, unset, i);
    }
  }

  /** Entries were filled by `HandleFrame`, one for each MAC. */
  ghost predicate TableOk(table: seq<Entry>) {
    && (forall i :: 0 <= i < |table| ==> Filled(table[i]))
    && forall i, j :: 0 <= i < j < |table| ==> table[i].mac != table[j].mac
  }

  ghost predicate Filled(e: Entry) {
    && e.currentOpcode == DHCP_OFFER && |e.mac| == 6
    && (e.mac == FIRST_MAC ==> e.ip == FIRST_IP) && (e.mac == SECOND_MAC ==> e.ip == SECOND_IP)
  }

  ghost predicate Holds(table: seq<Entry>, mac: seq<byte>, ip: u32) {
    exists i :: 0 <= i < |table| && table[i].mac == mac && table[i].ip == ip
  }

  /** What is found is in the table, and something is found when there is anything. */
  lemma {:induction false} FoundEntry(table: seq<Entry>, mac: Mac, unset: u32)
    requires TableOk(table)
    ensures var e := FindEntry(table, mac, unset);
            if e.currentOpcode == DHCP_NO_ENTRY then forall i :: 0 <= i < |table| ==> table[i].mac != mac
            else Filled(e) && e in table && e.mac == mac
  {
    if table != [] && table[|table| - 1].mac != mac {
      FoundEntry(table[..|table| - 1], mac, unset);
    }
  }

  /** For any clients: no MAC ever has two entries, and no entry ever changes. */
  lemma TableStaysOk(table: seq<Entry>, mac: Mac, opcode: byte, unset: u32)
    requires TableOk(table)
    ensures TableOk(TableAfter(table, mac, opcode, unset)) && table <= TableAfter(table, mac, opcode, unset)
  {
    FoundEntry(table, mac, unset);
  }

  /** The address the table holds for a MAC is the one that looking it up finds. */
  lemma {:induction false} HeldIsFound(table: seq<Entry>, mac: Mac, ip: u32, unset: u32)
    requires TableOk(table) && Holds(table, mac, ip)
    ensures FindEntry(table, mac, unset).ip == ip && FindEntry(table, mac, unset).mac == mac
    ensures FindEntry(table, mac, unset).currentOpcode == DHCP_OFFER
  {
    FoundEntry(table, mac, unset);
  }

  /** An offer names the address the table then holds for the client. */
  lemma OfferIsHeld(table: seq<Entry>, mac: Mac, unset: u32)
    requires TableOk(table)
    ensures var e := EntryFor(table, mac, DHCP_DISCOVER, unset);
            e.mac == mac && Holds(TableAfter(table, mac, DHCP_DISCOVER, unset), mac, e.ip)
  {
    FoundEntry(table, mac, unset);
    var after := TableAfter(table, mac, DHCP_DISCOVER, unset);
    var e := EntryFor(table, mac, DHCP_DISCOVER, unset);
    if e in table {
      var i :| 0 <= i < |table| && table[i] == e;
    } else {
      assert after[|table|] == e;
    }
  }

  /** A frame of the server's own, for a client that it holds an address for. */
  ghost predicate IsReply(r: Option<Message>, gwMac: Mac, mac: Mac, opcode: byte, clientIp: u32, yourIp: u32) {
    && r.Some? && r.value.DhcpMessage? && r.value.srcMac == gwMac && r.value.dstMac == mac
    && r.value.srcPort == 67 && r.value.dstPort == 68
    && r.value.dhcp.opcode == opcode && r.value.dhcp.clientIp == clientIp && r.value.dhcp.yourIp == yourIp
  }

  /** A request for the address held is acknowledged as it is; one for another is refused, naming the one held.
      Discovery by a client that has an address offers that again. Anything else is not answered. */
  lemma HeldClientIsAnswered(gwMac: Mac, table: seq<Entry>, mac: Mac, message: Dhcp, ip: u32, unset: u32)
    requires TableOk(table) && Holds(table, mac, ip)
    ensures var r := ServerReply(gwMac, table, mac, message, unset);
            && (message.opcode == 1 ==> IsReply(r, gwMac, mac, 2, message.clientIp, ip))
            && (message.opcode == 3 && message.clientIp == ip ==> IsReply(r, gwMac, mac, 5, ip, message.yourIp))
            && (message.opcode == 3 && message.clientIp != ip ==> IsReply(r, gwMac, mac, 6, message.clientIp, ip))
            && (message.opcode != 1 && message.opcode != 3 ==> r.None?)
    ensures TableAfter(table, mac, message.opcode, unset) == table
  {
    HeldIsFound(table, mac, ip, unset);
  }

  /** Discovery by a new client gives it an entry at the end of the table, and offers that address. */
  lemma NewClientIsOffered(gwMac: Mac, table: seq<Entry>, mac: Mac, message: Dhcp, unset: u32)
    requires TableOk(table) && message.opcode == 1 && forall i :: 0 <= i < |table| ==> table[i].mac != mac
    ensures var after := TableAfter(table, mac, 1, unset);
            && |after| == |table| + 1 && after[..|table|] == table && after[|table|].mac == mac
            && IsReply(ServerReply(gwMac, table, mac, message, unset),
                       gwMac, mac, 2, message.clientIp, after[|table|].ip)
  {
    FoundEntry(table, mac, unset);
  }

  lemma HeldInLonger(table: seq<Entry>, longer: seq<Entry>, mac: seq<byte>, ip: u32)
    requires Holds(table, mac, ip) && table <= longer
    ensures Holds(longer, mac, ip)
  {
    var i :| 0 <= i < |table| && table[i].mac == mac && table[i].ip == ip;
    assert longer[i] == table[i];
  }
}

/** The host's side: its ARP cache, the answers to ARP, and the DHCP client. */
module AddressHosts {
  import opened Bytes
  import opened Addressing
  import opened Codecs
  import opened AddressMessages

  datatype ArpEntry = ArpEntry(ip: u32, mac: Mac)

  /** The first MAC cached for an address, or the broadcast MAC. */
  function CachedMac(cache: seq<ArpEntry>, ip: u32): Mac {
    if cache == [] then BROADCAST_MAC else if cache[0].ip == ip then cache[0].mac else CachedMac(cache[1..], ip)
  }

  /** For any cache: what is found is the first entry of the address. */
  lemma {:induction false} CachedIsFirst(cache: seq<ArpEntry>, i: nat)
    requires i < |cache| && forall j :: 0 <= j < i ==> cache[j].ip != cache[i].ip
    ensures CachedMac(cache, cache[i].ip) == cache[i].mac
  {
    if i > 0 {
      CachedIsFirst(cache[1..], i - 1);
    }
  }

  class ArpCache {
    var cache: seq<ArpEntry>

    constructor ()
      ensures cache == []
    {
      cache := [];
    }

    method GetMac(ip: u32) returns (result: Mac)
      ensures result == CachedMac(cache, ip)
    {
      result := BROADCAST_MAC;
      for i := 0 to |cache|
        invariant result == BROADCAST_MAC && CachedMac(cache, ip) == CachedMac(cache[i..], ip)
      {
        if cache[i].ip == ip {
          result := cache[i].mac;
          break;
        }
        assert cache[i..][1..] == cache[i + 1..];
      }
    }

    method AddEntry(ip: u32, mac: Mac)
      modifies this
      ensures cache == old(cache) + [ArpEntry(ip, mac)]
    {
      cache := cache + [ArpEntry(ip, mac)];
    }
  }

  /** Where a host is in `DHCP_client`; `tx` is the message it last made. */
  datatype Phase = Idle | AwaitsOffer(tx: Dhcp) | AwaitsAck(tx: Dhcp) | Bound

  datatype HostState = HostState(mac: Mac, phase: Phase, ip: Option<u32>, cache: seq<ArpEntry>)

  function FreshHost(mac: Mac): HostState {
    HostState(mac, Idle, None, [])
  }

  /** The MAC filter. */
  predicate IsFor(h: HostState, m: Message) {
    m.dstMac == h.mac || m.dstMac == BROADCAST_MAC
  }

  /** ARP is for whoever holds the target address. The sender is remembered unless its address already is. */
  function CacheAfter(h: HostState, arp: Arp): seq<ArpEntry> {
    if Some(arp.targetIp) == h.ip && CachedMac(h.cache, arp.senderIp) == BROADCAST_MAC
    then h.cache + [ArpEntry(arp.senderIp, arp.senderMac)] else h.cache
  }

  function ArpAnswer(h: HostState, arp: Arp): Option<Message> {
    if Some(arp.targetIp) == h.ip && arp.opcode == ARP_REQUEST
    then Some(ArpMessage(h.mac, arp.senderMac, Arp(ARP_REPLY, h.mac, arp.targetIp, arp.senderMac, arp.senderIp)))
    else None
  }

  function FromClient(mac: Mac, tx: Dhcp): Message {
    DhcpMessage(mac, BROADCAST_MAC, BOOTP_CLIENT_PORT, BOOTP_SERVER_PORT, tx)
  }

  function FirstMessage(unset: u32): Dhcp {
    Dhcp(DHCP_DISCOVER, 0, unset)
  }

  /** What the client asks for once it has an offer. */
  function RequestFor(offer: Dhcp): Dhcp {
    Dhcp(DHCP_REQUEST, offer.yourIp, offer.yourIp)
  }

  /** The state after a frame, when it passes the filter and, for DHCP, a socket waits for it. */
  function StateAfter(h: HostState, m: Message): HostState {
    if !IsFor(h, m) then h
    else match m
      case ArpMessage(_, _, arp) => h.(cache := CacheAfter(h, arp))
      case DhcpMessage(_, _, srcPort, dstPort, dhcp) =>
        if dstPort != BOOTP_CLIENT_PORT || srcPort != BOOTP_SERVER_PORT then h
        else if h.phase.AwaitsOffer? && dhcp.opcode == DHCP_OFFER then h.(phase := AwaitsAck(RequestFor(dhcp)))
        else if h.phase.AwaitsAck? && dhcp.opcode == DHCP_ACK then h.(phase := Bound, ip := Some(dhcp.yourIp))
        else h
  }

  /** What the host sends on a frame. Waiting for an offer it repeats its message on frames from another
      port than the server's; waiting for an acknowledgement it only builds the frame, and sends nothing. */
  function SentOn(h: HostState, m: Message): Option<Message> {
    if !IsFor(h, m) then None
    else match m
      case ArpMessage(_, _, arp) => ArpAnswer(h, arp)
      case DhcpMessage(_, _, srcPort, dstPort, dhcp) =>
        if dstPort != BOOTP_CLIENT_PORT || !h.phase.AwaitsOffer? then None
        else if srcPort != BOOTP_SERVER_PORT then Some(FromClient(h.mac, h.phase.tx))
        else if dhcp.opcode == DHCP_OFFER then Some(FromClient(h.mac, RequestFor(dhcp)))
        else None
  }

  /** What a host answers is never answered: replies are not requests. */
  lemma AnswersEnd(h: HostState, g: HostState, m: Message)
    requires SentOn(h, m).Some? && SentOn(h, m).value.ArpMessage?
    ensures m.ArpMessage? && m.arp.opcode == 1 && SentOn(h, m).value.arp.opcode == 2
    ensures SentOn(g, SentOn(h, m).value).None?
  {
  }

  /** A waiting client, and any frame for its port that passes its filter: an offer from the server makes it
      ask for the offered address, a frame from another port makes it send its first message again, and an
      acknowledgement gives it the address; nothing else matters to it. */
  lemma WaitingClientActs(h: HostState, m: Message)
    requires m.DhcpMessage? && m.dstPort == 68 && (m.dstMac == h.mac || m.dstMac == UniformMac(0xFF))
    ensures h.phase.AwaitsOffer? && m.srcPort == 67 && m.dhcp.opcode == 2 ==>
              && StateAfter(h, m).phase == AwaitsAck(Dhcp(3, m.dhcp.yourIp, m.dhcp.yourIp))
              && SentOn(h, m) == Some(DhcpMessage(h.mac, UniformMac(0xFF), 68, 67, StateAfter(h, m).phase.tx))
    ensures h.phase.AwaitsOffer? && m.srcPort != 67 ==>
              StateAfter(h, m) == h && SentOn(h, m) == Some(DhcpMessage(h.mac, UniformMac(0xFF), 68, 67, h.phase.tx))
    ensures h.phase.AwaitsAck? && m.srcPort == 67 && m.dhcp.opcode == 5 ==>
              StateAfter(h, m) == h.(phase := Bound, ip := Some(m.dhcp.yourIp)) && SentOn(h, m).None?
    ensures h.phase.AwaitsOffer? && m.srcPort == 67 && m.dhcp.opcode != 2 ==>
              StateAfter(h, m) == h && SentOn(h, m).None?
    ensures h.phase.AwaitsAck? && (m.srcPort != 67 || m.dhcp.opcode != 5) ==>
              StateAfter(h, m) == h && SentOn(h, m).None?
    ensures h.phase.Idle? || h.phase.Bound? ==> StateAfter(h, m) == h && SentOn(h, m).None?
  {
  }

  class Host {
    const mac: Mac
    var phase: Phase
    var ip: Option<u32>
    const cache: ArpCache

    function View(): HostState
      reads this, cache
    {
      HostState(mac, phase, ip, cache.cache)
    }

    constructor (mac: Mac)
      ensures View() == FreshHost(mac) && fresh(cache)
    {
      this.mac, phase, ip := mac, Idle, None;
      cache := new ArpCache();
    }

    /** The start of `DHCP_client`; nothing sets `your_ip`. */
    method Discover(unset: u32) returns (sent: Message)
      requires phase.Idle?
      modifies this`phase
      ensures View() == old(View()).(phase := AwaitsOffer(FirstMessage(unset)))
      ensures sent == FromClient(mac, FirstMessage(unset))
    {
      var tx := Dhcp(DHCP_DISCOVER, 0, unset);
      phase := AwaitsOffer(tx);
      sent := DhcpMessage(mac, BROADCAST_MAC, BOOTP_CLIENT_PORT, BOOTP_SERVER_PORT, tx);
    }

    method ReceiveArp(received: Arp) returns (sent: Option<Message>)
      modifies cache
      ensures View() == old(View()).(cache := CacheAfter(old(View()), received))
      ensures sent == ArpAnswer(old(View()), received)
    {
      sent := None;
      var arp := received;
      if Some(arp.targetIp) == ip {
        var known := cache.GetMac(arp.senderIp);
        if known == BROADCAST_MAC {
          cache.AddEntry(arp.senderIp, arp.senderMac);
        }
        if arp.opcode == ARP_REQUEST {
          arp := arp.(opcode := ARP_REPLY);
          arp := arp.(targetMac := arp.senderMac, targetIp := arp.senderIp);
          arp := arp.(senderMac := mac, senderIp := ip.value);
          sent := Some(ArpMessage(mac, arp.targetMac, arp));
        }
      }
    }

    method ReceiveDhcp(srcPort: u16, received: Dhcp) returns (sent: Option<Message>)
      requires phase.AwaitsOffer? || phase.AwaitsAck?
      modifies this`phase, this`ip
      ensures forall dst: seq<byte>, src: Mac :: dst == mac || dst == BROADCAST_MAC ==>
                var m := DhcpMessage(src, dst, srcPort, BOOTP_CLIENT_PORT, received);
                View() == StateAfter(old(View()), m) && sent == SentOn(old(View()), m)
    {
      sent := None;
      if phase.AwaitsOffer? {
        if srcPort == BOOTP_SERVER_PORT {
          if received.opcode == DHCP_OFFER {
            var tx := Dhcp(DHCP_REQUEST, received.yourIp, received.yourIp);
            phase := AwaitsAck(tx);
            sent := Some(DhcpMessage(mac, BROADCAST_MAC, BOOTP_CLIENT_PORT, BOOTP_SERVER_PORT, tx));
          }
        } else {
          sent := Some(DhcpMessage(mac, BROADCAST_MAC, BOOTP_CLIENT_PORT, BOOTP_SERVER_PORT, phase.tx));
        }
      } else if srcPort == BOOTP_SERVER_PORT && received.opcode == DHCP_ACK {
        ip := Some(received.yourIp);
        phase := Bound;
      }
    }

    /** The demultiplexer's way to one of the two; frames for others and for closed ports are dropped. */
    method Receive(m: Message) returns (sent: Option<Message>)
      modifies this`phase, this`ip, cache
      ensures View() == StateAfter(old(View()), m) && sent == SentOn(old(View()), m)
    {
      sent := None;
      if m.dstMac == mac || m.dstMac == BROADCAST_MAC {
        match m
        case ArpMessage(_, _, arp) =>
          sent := ReceiveArp(arp);
        case DhcpMessage(_, _, srcPort, dstPort, dhcp) =>
          if dstPort == BOOTP_CLIENT_PORT && (phase.AwaitsOffer? || phase.AwaitsAck?) {
            sent := ReceiveDhcp(srcPort, dhcp);
          }
      }
    }

    /** What a process does before it sends to an address: it uses the cache, or asks once and then waits. */
    method LookUp(target: u32) returns (found: Mac, sent: Option<Message>)
      requires ip.Some?
      ensures found == CachedMac(View().cache, target)
      ensures sent == if found == BROADCAST_MAC then Some(ArpRequest(View(), target)) else None
    {
      found := cache.GetMac(target);
      sent := None;
      if found == BROADCAST_MAC {
        var arp := Arp(ARP_REQUEST, mac, ip.value, UniformMac(0), target);
        sent := Some(ArpMessage(mac, BROADCAST_MAC, arp));
      }
    }
  }

  function ArpRequest(h: HostState, target: u32): Message
    requires h.ip.Some?
  {
    ArpMessage(h.mac, BROADCAST_MAC, Arp(ARP_REQUEST, h.mac, h.ip.value, UniformMac(0), target))
  }
}

/** One DHCP server and the two clients it has addresses for, on a network that may lose, repeat and
    reorder frames: a frame on it may be taken at any time, and may then stay there or not, and any frame
    may be lost for good. */
module AddressAgreement {
  import opened Bytes
  import opened Addressing
  import opened Codecs
  import opened AddressMessages
  import opened DhcpService
  import opened AddressHosts

  const CLIENTS := {FIRST_MAC, SECOND_MAC}

  datatype System = System(table: seq<Entry>, hosts: map<Mac, HostState>, frames: set<Message>)

  ghost predicate IsStart(s: System) {
    && s.table == [] && s.frames == {}
    && s.hosts == map[FIRST_MAC := FreshHost(FIRST_MAC), SECOND_MAC := FreshHost(SECOND_MAC)]
  }

  function Added(sent: set<Message>, reply: Option<Message>): set<Message> {
    if reply.Some? then sent + {reply.value} else sent
  }

  ghost predicate Discovers(s: System, t: System, mac: Mac, unset: u32) {
    && mac in s.hosts && s.hosts[mac].phase.Idle?
    && t == System(s.table, s.hosts[mac := s.hosts[mac].(phase := AwaitsOffer(FirstMessage(unset)))],
                   s.frames + {FromClient(mac, FirstMessage(unset))})
  }

  /** What is left of the frames when `m` has been taken. */
  function Left(frames: set<Message>, m: Message, kept: bool): set<Message> {
    if kept then frames else frames - {m}
  }

  ghost predicate HostTakes(s: System, t: System, mac: Mac, m: Message, kept: bool) {
    && mac in s.hosts && m in s.frames
    && t == System(s.table, s.hosts[mac := StateAfter(s.hosts[mac], m)],
                   Added(Left(s.frames, m, kept), SentOn(s.hosts[mac], m)))
  }

  /** A host with an address asks for another's MAC. */
  ghost predicate AsksFor(s: System, t: System, mac: Mac, target: u32) {
    && mac in s.hosts && s.hosts[mac].ip.Some?
    && t == s.(frames := s.frames + {ArpRequest(s.hosts[mac], target)})
  }

  /** The gateway hands the server what goes from a client's port to a server's. */
  ghost predicate ServerTakes(s: System, t: System, gwMac: Mac, m: Message, unset: u32, kept: bool) {
    && m in s.frames && m.DhcpMessage? && m.srcPort == BOOTP_CLIENT_PORT && m.dstPort == BOOTP_SERVER_PORT
    && t == System(TableAfter(s.table, m.srcMac, m.dhcp.opcode, unset), s.hosts,
                   Added(Left(s.frames, m, kept), ServerReply(gwMac, s.table, m.srcMac, m.dhcp, unset)))
  }

  ghost predicate Loses(s: System, t: System, m: Message) {
    t == s.(frames := s.frames - {m})
  }

  /** A step in which no host starts to look up an address. */
  ghost predicate QuietStep(s: System, t: System, gwMac: Mac) {
    || t == s
    || (exists mac, unset :: Discovers(s, t, mac, unset))
    || (exists mac, m, kept :: HostTakes(s, t, mac, m, kept))
    || (exists m, unset, kept :: ServerTakes(s, t, gwMac, m, unset, kept))
    || (exists m :: Loses(s, t, m))
  }

  ghost predicate Step(s: System, t: System, gwMac: Mac) {
    || QuietStep(s, t, gwMac)
    || (exists mac, target :: AsksFor(s, t, mac, target))
  }

  ghost predicate IsRun(run: seq<System>, gwMac: Mac) {
    && run != [] && IsStart(run[0])
    && forall i :: 0 <= i < |run| - 1 ==> Step(run[i], run[i + 1], gwMac)
  }

  // What every reachable state keeps

  /** The host at `mac` has adopted `ip`. */
  ghost predicate Adopted(hosts: map<Mac, HostState>, mac: Mac, ip: u32) {
    mac in hosts && hosts[mac].ip == Some(ip)
  }

  /** What clients ask for, and what the server offers and acknowledges, is what the table holds. ARP frames
      tell what their senders have adopted: requests go to everyone, replies to whoever holds the target. */
  ghost predicate MessageOk(s: System, m: Message) {
    match m
    case DhcpMessage(srcMac, dstMac, srcPort, dstPort, dhcp) =>
      if srcPort == 68 then
        && srcMac in CLIENTS && dstPort == 67 && dstMac == UniformMac(0xFF)
        && ((dhcp.opcode == 1 && dhcp.clientIp == 0)
            || (dhcp.opcode == 3 && dhcp.clientIp == dhcp.yourIp && Holds(s.table, srcMac, dhcp.yourIp)))
      else
        && srcPort == 67 && dstPort == 68 && dstMac in CLIENTS && Holds(s.table, dstMac, dhcp.yourIp)
        && ((dhcp.opcode == 2 && dhcp.clientIp == 0) || (dhcp.opcode == 5 && dhcp.clientIp == dhcp.yourIp))
    case ArpMessage(srcMac, dstMac, arp) =>
      && srcMac == arp.senderMac && Adopted(s.hosts, arp.senderMac, arp.senderIp)
      && ((arp.opcode == 1 && dstMac == UniformMac(0xFF) && arp.targetMac == UniformMac(0))
          || (arp.opcode == 2 && dstMac == arp.targetMac && Adopted(s.hosts, arp.targetMac, arp.targetIp)))
  }

  ghost predicate CacheOk(hosts: map<Mac, HostState>, cache: seq<ArpEntry>) {
    && (forall i :: 0 <= i < |cache| ==> Adopted(hosts, cache[i].mac, cache[i].ip))
    && forall i, j :: 0 <= i < j < |cache| ==> cache[i].ip != cache[j].ip
  }

  ghost predicate HostOk(s: System, h: HostState) {
    && (h.ip.Some? <==> h.phase.Bound?)
    && (h.ip.Some? ==> Holds(s.table, h.mac, h.ip.value))
    && CacheOk(s.hosts, h.cache)
  }

  ghost predicate Ok(s: System) {
    && TableOk(s.table) && s.hosts.Keys == CLIENTS
    && (forall mac :: mac in s.hosts ==>
          s.hosts[mac].mac == mac && HostOk(s, s.hosts[mac]))
    && forall m :: m in s.frames ==> MessageOk(s, m)
  }

  /** Table and caches only grow, and an adopted address stays. */
  ghost predicate Extends(s: System, t: System) {
    && s.table <= t.table && s.hosts.Keys == t.hosts.Keys
    && forall mac :: mac in s.hosts ==> HostExtends(s.hosts[mac], t.hosts[mac])
  }

  ghost predicate HostExtends(h: HostState, g: HostState) {
    h.mac == g.mac && h.cache <= g.cache && (h.ip.Some? ==> g.ip == h.ip)
  }

  lemma CacheOkInLater(s: System, t: System, cache: seq<ArpEntry>)
    requires CacheOk(s.hosts, cache) && Extends(s, t)
    ensures CacheOk(t.hosts, cache)
  {
    forall i | 0 <= i < |cache|
      ensures Adopted(t.hosts, cache[i].mac, cache[i].ip)
    {
      assert Adopted(s.hosts, cache[i].mac, cache[i].ip);
    }
  }

  lemma HostOkInLater(s: System, t: System, h: HostState)
    requires HostOk(s, h) && Extends(s, t)
    ensures HostOk(t, h)
  {
    CacheOkInLater(s, t, h.cache);
    if h.ip.Some? {
      HeldInLonger(s.table, t.table, h.mac, h.ip.value);
    }
  }

  lemma MessageOkInLater(s: System, t: System, m: Message)
    requires MessageOk(s, m) && Extends(s, t)
    ensures MessageOk(t, m)
  {
    match m
    case DhcpMessage(srcMac, dstMac, srcPort, _, dhcp) =>
      if srcPort != BOOTP_CLIENT_PORT {
        HeldInLonger(s.table, t.table, dstMac, dhcp.yourIp);
      } else if dhcp.opcode == DHCP_REQUEST {
        HeldInLonger(s.table, t.table, srcMac, dhcp.yourIp);
      }
    case ArpMessage(_, _, arp) =>
      assert Adopted(s.hosts, arp.senderMac, arp.senderIp);
  }

  /** A cached MAC is a client's, so the broadcast MAC still means that nothing is cached. */
  lemma {:induction false} UncachedIsNew(hosts: map<Mac, HostState>, cache: seq<ArpEntry>, ip: u32, i: nat)
    requires hosts.Keys == CLIENTS && i < |cache|
    requires forall k :: 0 <= k < |cache| ==> Adopted(hosts, cache[k].mac, cache[k].ip)
    requires CachedMac(cache, ip) == BROADCAST_MAC
    ensures cache[i].ip != ip
  {
    assert Adopted(hosts, cache[0].mac, cache[0].ip);
    if i > 0 && cache[0].ip != ip {
      forall k | 0 <= k < |cache[1..]|
        ensures Adopted(hosts, cache[1..][k].mac, cache[1..][k].ip)
      {
        assert Adopted(hosts, cache[k + 1].mac, cache[k + 1].ip);
      }
      UncachedIsNew(hosts, cache[1..], ip, i - 1);
    }
  }

  /** Learning a sender that has adopted its address keeps a cache right. */
  lemma CacheAfterOk(s: System, h: HostState, arp: Arp)
    requires s.hosts.Keys == CLIENTS && CacheOk(s.hosts, h.cache) && Adopted(s.hosts, arp.senderMac, arp.senderIp)
    ensures CacheOk(s.hosts, CacheAfter(h, arp)) && h.cache <= CacheAfter(h, arp)
  {
    if CachedMac(h.cache, arp.senderIp) == BROADCAST_MAC {
      forall i | 0 <= i < |h.cache|
        ensures h.cache[i].ip != arp.senderIp
      {
        UncachedIsNew(s.hosts, h.cache, arp.senderIp, i);
      }
    }
  }

  /** With the others as they were, one host's change and one message keep everything. */
  lemma ChangeKeepsOk(s: System, t: System, mac: Mac, h: HostState, reply: Option<Message>)
    requires Ok(s) && mac in s.hosts && HostExtends(s.hosts[mac], h)
    requires t.table == s.table && t.hosts == s.hosts[mac := h] && t.frames <= Added(s.frames, reply)
    requires HostOk(s, h) && (reply.Some? ==> MessageOk(s, reply.value))
    ensures Ok(t) && Extends(s, t)
  {
    assert t.hosts.Keys == CLIENTS;
    forall other | other in t.hosts
      ensures t.hosts[other].mac == other && HostOk(t, t.hosts[other])
    {
      HostOkInLater(s, t, t.hosts[other]);
    }
    forall m | m in t.frames
      ensures MessageOk(t, m)
    {
      MessageOkInLater(s, t, m);
    }
  }

  lemma TakenKeepsHost(s: System, mac: Mac, m: Message)
    requires Ok(s) && mac in s.hosts && m in s.frames
    ensures HostOk(s, StateAfter(s.hosts[mac], m)) && HostExtends(s.hosts[mac], StateAfter(s.hosts[mac], m))
  {
    assert MessageOk(s, m);
    if m.ArpMessage? {
      CacheAfterOk(s, s.hosts[mac], m.arp);
    }
  }

  /** What a host sends is right in the state it leaves behind. */
  lemma ReplyIsOk(s: System, mac: Mac, m: Message)
    requires Ok(s) && mac in s.hosts && m in s.frames && SentOn(s.hosts[mac], m).Some?
    ensures MessageOk(s, SentOn(s.hosts[mac], m).value)
  {
    assert MessageOk(s, m) && HostOk(s, s.hosts[mac]);
  }

  lemma ServerTakesKeepsOk(s: System, t: System, gwMac: Mac, m: Message, unset: u32, kept: bool)
    requires Ok(s) && ServerTakes(s, t, gwMac, m, unset, kept)
    ensures Ok(t) && Extends(s, t)
  {
    assert MessageOk(s, m);
    TableStaysOk(s.table, m.srcMac, m.dhcp.opcode, unset);
    if m.dhcp.opcode == DHCP_DISCOVER {
      OfferIsHeld(s.table, m.srcMac, unset);
    } else {
      HeldIsFound(s.table, m.srcMac, m.dhcp.yourIp, unset);
    }
    forall mac | mac in t.hosts
      ensures t.hosts[mac].mac == mac && HostOk(t, t.hosts[mac])
    {
      HostOkInLater(s, t, s.hosts[mac]);
    }
    forall n | n in t.frames
      ensures MessageOk(t, n)
    {
      if n in s.frames {
        MessageOkInLater(s, t, n);
      }
    }
  }

  lemma HostTakesKeepsOk(s: System, t: System, mac: Mac, m: Message, kept: bool)
    requires Ok(s) && HostTakes(s, t, mac, m, kept)
    ensures Ok(t) && Extends(s, t)
  {
    TakenKeepsHost(s, mac, m);
    if SentOn(s.hosts[mac], m).Some? {
      ReplyIsOk(s, mac, m);
    }
    ChangeKeepsOk(s, t, mac, t.hosts[mac], SentOn(s.hosts[mac], m));
  }

  lemma LossKeepsOk(s: System, t: System, m: Message)
    requires Ok(s) && Loses(s, t, m)
    ensures Ok(t) && Extends(s, t)
  {
    assert s.hosts[FIRST_MAC := s.hosts[FIRST_MAC]] == s.hosts;
    ChangeKeepsOk(s, t, FIRST_MAC, s.hosts[FIRST_MAC], None);
  }

  lemma StepKeepsOk(s: System, t: System, gwMac: Mac)
    requires Ok(s) && Step(s, t, gwMac)
    ensures Ok(t) && Extends(s, t)
  {
    if mac, unset :| Discovers(s, t, mac, unset) {
      ChangeKeepsOk(s, t, mac, t.hosts[mac], Some(FromClient(mac, FirstMessage(unset))));
    } else if mac, m, kept :| HostTakes(s, t, mac, m, kept) {
      HostTakesKeepsOk(s, t, mac, m, kept);
    } else if m, unset, kept :| ServerTakes(s, t, gwMac, m, unset, kept) {
      ServerTakesKeepsOk(s, t, gwMac, m, unset, kept);
    } else if m :| Loses(s, t, m) {
      LossKeepsOk(s, t, m);
    } else if mac, target :| AsksFor(s, t, mac, target) {
      assert s.hosts[mac := s.hosts[mac]] == s.hosts;
      ChangeKeepsOk(s, t, mac, s.hosts[mac], Some(ArpRequest(s.hosts[mac], target)));
    }
  }

  lemma {:induction false} RunStaysOk(run: seq<System>, gwMac: Mac, k: nat)
    requires IsRun(run, gwMac) && k < |run|
    ensures Ok(run[k])
  {
    if k > 0 {
      RunStaysOk(run, gwMac, k - 1);
      assert Step(run[k - 1], run[k - 1 + 1], gwMac);
      StepKeepsOk(run[k - 1], run[k], gwMac);
    }
  }

  // The laws

  ghost predicate OneEntryEach(table: seq<Entry>) {
    forall i, j :: 0 <= i < j < |table| ==> table[i].mac != table[j].mac
  }

  /** An adopted address is the one the table holds for that MAC. */
  ghost predicate AdoptedFromTable(s: System, unset: u32) {
    forall mac, ip :: Adopted(s.hosts, mac, ip) ==>
      FindEntry(s.table, mac, unset).mac == mac && FindEntry(s.table, mac, unset).ip == ip
  }

  ghost predicate NoAddressTwice(s: System) {
    forall mac, other, ip :: Adopted(s.hosts, mac, ip) && Adopted(s.hosts, other, ip) ==> mac == other
  }

  /** A MAC found in a cache is that of the one client which holds the address. */
  ghost predicate CachesPointToOwners(s: System) {
    forall mac, ip :: mac in s.hosts && CachedMac(s.hosts[mac].cache, ip) != BROADCAST_MAC ==>
      Adopted(s.hosts, CachedMac(s.hosts[mac].cache, ip), ip)
  }

  /** The server refuses nobody, and answers only clients it has an entry for. */
  ghost predicate ServerAnswersClients(s: System) {
    forall m :: m in s.frames && m.DhcpMessage? && m.srcPort == BOOTP_SERVER_PORT ==>
      m.dhcp.opcode != DHCP_NACK && m.dstMac in CLIENTS && Holds(s.table, m.dstMac, m.dhcp.yourIp)
  }

  lemma {:induction false} CachedIsIn(cache: seq<ArpEntry>, ip: u32)
    requires CachedMac(cache, ip) != BROADCAST_MAC
    ensures ArpEntry(ip, CachedMac(cache, ip)) in cache
  {
    if cache[0].ip != ip {
      CachedIsIn(cache[1..], ip);
    }
  }

  /** Whatever is lost, repeated or overtaken, server, clients and caches agree on who has which address. */
  lemma AddressesAgree(run: seq<System>, gwMac: Mac, k: nat, unset: u32)
    requires IsRun(run, gwMac) && k < |run|
    ensures OneEntryEach(run[k].table) && AdoptedFromTable(run[k], unset) && NoAddressTwice(run[k])
    ensures CachesPointToOwners(run[k]) && ServerAnswersClients(run[k])
    ensures forall ip :: Adopted(run[k].hosts, UniformMac(0x11), ip) ==> ip == 0x6F6F6F6F
    ensures forall ip :: Adopted(run[k].hosts, UniformMac(0x22), ip) ==> ip == 0xDEDEDEDE
  {
    RunStaysOk(run, gwMac, k);
    var s := run[k];
    forall mac, ip | Adopted(s.hosts, mac, ip)
      ensures FindEntry(s.table, mac, unset).mac == mac && FindEntry(s.table, mac, unset).ip == ip
      ensures ip == AddressFor(mac, unset)
    {
      HeldIsFound(s.table, mac, ip, unset);
      FoundEntry(s.table, mac, unset);
    }
    forall mac, ip | mac in s.hosts && CachedMac(s.hosts[mac].cache, ip) != BROADCAST_MAC
      ensures Adopted(s.hosts, CachedMac(s.hosts[mac].cache, ip), ip)
    {
      CachedIsIn(s.hosts[mac].cache, ip);
    }
    forall m | m in s.frames && m.DhcpMessage? && m.srcPort == BOOTP_SERVER_PORT
      ensures m.dhcp.opcode != DHCP_NACK && m.dstMac in CLIENTS && Holds(s.table, m.dstMac, m.dhcp.yourIp)
    {
      assert MessageOk(s, m);
    }
  }

  lemma ExtendsFurther(s: System, t: System, u: System)
    requires Extends(s, t) && Extends(t, u)
    ensures Extends(s, u)
  {
    forall mac | mac in s.hosts
      ensures HostExtends(s.hosts[mac], u.hosts[mac])
    {
      assert HostExtends(t.hosts[mac], u.hosts[mac]);
    }
  }

  lemma NextExtends(run: seq<System>, gwMac: Mac, k: nat, s: System, t: System)
    requires IsRun(run, gwMac) && k + 1 < |run| && s == run[k] && t == run[k + 1]
    ensures Extends(s, t)
  {
    RunStaysOk(run, gwMac, k);
    StepKeepsOk(s, t, gwMac);
  }

  /** Entries, adopted addresses and cache entries are never changed or dropped. */
  lemma {:induction false} NothingIsTakenBack(run: seq<System>, gwMac: Mac, i: nat, j: nat)
    requires IsRun(run, gwMac) && i <= j < |run|
    ensures Extends(run[i], run[j])
  {
    if i < j {
      NothingIsTakenBack(run, gwMac, i, j - 1);
      NextExtends(run, gwMac, j - 1, run[j - 1], run[j]);
      ExtendsFurther(run[i], run[j - 1], run[j]);
    }
  }

  /** What comes from the server's port comes from the server. */
  lemma {:induction false} ServerFramesAreItsOwn(run: seq<System>, gwMac: Mac, k: nat)
    requires IsRun(run, gwMac) && k < |run|
    ensures forall m :: m in run[k].frames && m.DhcpMessage? && m.srcPort == 67 ==> m.srcMac == gwMac
  {
    if k > 0 {
      ServerFramesAreItsOwn(run, gwMac, k - 1);
      NextFramesAreItsOwn(run[k - 1], run[k], gwMac);
    }
  }

  lemma NextFramesAreItsOwn(s: System, t: System, gwMac: Mac)
    requires Step(s, t, gwMac) && forall m :: m in s.frames && m.DhcpMessage? && m.srcPort == 67 ==> m.srcMac == gwMac
    ensures forall m :: m in t.frames && m.DhcpMessage? && m.srcPort == 67 ==> m.srcMac == gwMac
  {
  }

  // One request brings one reply

  ghost predicate QuietFrom(run: seq<System>, gwMac: Mac, j: nat) {
    forall i :: j <= i < |run| - 1 ==> QuietStep(run[i], run[i + 1], gwMac)
  }

  /** The reply to a request: from the holder of the target address, to the asker, about both. */
  ghost predicate IsReplyTo(s: System, r: Message, q: Message) {
    && r.ArpMessage? && q.ArpMessage? && r.arp.opcode == 2 && r.dstMac == q.arp.senderMac
    && r.arp.targetMac == q.arp.senderMac && r.arp.targetIp == q.arp.senderIp
    && r.srcMac == r.arp.senderMac && r.arp.senderIp == q.arp.targetIp
    && Adopted(s.hosts, r.arp.senderMac, r.arp.senderIp)
  }

  ghost predicate OnlyAbout(s: System, q: Message) {
    forall m :: m in s.frames && m.ArpMessage? ==> m == q || IsReplyTo(s, m, q)
  }

  lemma StillReplies(s: System, t: System, r: Message, q: Message)
    requires IsReplyTo(s, r, q) && Extends(s, t)
    ensures IsReplyTo(t, r, q)
  {
  }

  /** Only a host that took a frame sends an ARP frame in a quiet step. */
  lemma NewFrameIsSent(s: System, t: System, gwMac: Mac, m: Message) returns (mac: Mac, asked: Message)
    requires QuietStep(s, t, gwMac) && m in t.frames && m !in s.frames && m.ArpMessage?
    ensures mac in s.hosts && asked in s.frames && SentOn(s.hosts[mac], asked) == Some(m)
  {
    if h, q, kept :| HostTakes(s, t, h, q, kept) {
      mac, asked := h, q;
    } else {
      assert false;
    }
  }

  /** What is answered is the request, since replies are not. */
  lemma AnswerReplies(s: System, mac: Mac, asked: Message, q: Message)
    requires Ok(s) && mac in s.hosts && asked in s.frames && OnlyAbout(s, q) && q.ArpMessage?
    requires SentOn(s.hosts[mac], asked).Some? && SentOn(s.hosts[mac], asked).value.ArpMessage?
    ensures IsReplyTo(s, SentOn(s.hosts[mac], asked).value, q)
  {
    assert asked == q || IsReplyTo(s, asked, q);
  }

  lemma StepStaysAbout(s: System, t: System, gwMac: Mac, q: Message)
    requires Ok(s) && QuietStep(s, t, gwMac) && q.ArpMessage? && OnlyAbout(s, q)
    ensures OnlyAbout(t, q)
  {
    assert Step(s, t, gwMac);
    StepKeepsOk(s, t, gwMac);
    forall m | m in t.frames && m.ArpMessage?
      ensures m == q || IsReplyTo(t, m, q)
    {
      if m !in s.frames {
        var mac, asked := NewFrameIsSent(s, t, gwMac, m);
        AnswerReplies(s, mac, asked, q);
        StillReplies(s, t, m, q);
      } else if m != q {
        StillReplies(s, t, m, q);
      }
    }
  }

  lemma {:induction false} StaysAbout(run: seq<System>, gwMac: Mac, j: nat, k: nat, q: Message)
    requires IsRun(run, gwMac) && j <= k < |run| && QuietFrom(run, gwMac, j) && q.ArpMessage? && OnlyAbout(run[j], q)
    ensures OnlyAbout(run[k], q)
    decreases k - j
  {
    if j < k {
      RunStaysOk(run, gwMac, j);
      StepStaysAbout(run[j], run[j + 1], gwMac, q);
      StaysAbout(run, gwMac, j + 1, k, q);
    }
  }

  /** However often it is taken, one request brings at most one other ARP frame, its reply, as long as nobody
      asks again. */
  lemma OneRequestOneReply(run: seq<System>, gwMac: Mac, j: nat, k: nat, q: Message)
    requires IsRun(run, gwMac) && j <= k < |run| && QuietFrom(run, gwMac, j)
    requires q.ArpMessage? && forall m :: m in run[j].frames && m.ArpMessage? ==> m == q
    ensures forall m :: m in run[k].frames && m.ArpMessage? && m != q ==> IsReplyTo(run[k], m, q)
    ensures forall m, r :: m in run[k].frames && r in run[k].frames && m.ArpMessage? && m != q && r.ArpMessage? ==>
              r == q || r == m
  {
    StaysAbout(run, gwMac, j, k, q);
    RunStaysOk(run, gwMac, k);
    AddressesAgree(run, gwMac, k, 0);
  }
}
