/** When the clients can still get addresses and find each other. Nothing in the source sends a message of
    its own accord a second time, so each loss of the one useful frame is for good. */
module AddressProgress {
  import opened Bytes
  import opened Addressing
  import opened Codecs
  import opened AddressMessages
  import opened DhcpService
  import opened AddressHosts
  import opened AddressAgreement

  // Frames that can bring a client on

  ghost predicate IsFrom(m: Message, mac: Mac, opcode: byte) {
    && m.DhcpMessage? && m.srcMac == mac && m.dhcp.opcode == opcode
    && m.srcPort == BOOTP_CLIENT_PORT && m.dstPort == BOOTP_SERVER_PORT
  }

  ghost predicate IsTo(m: Message, mac: Mac, opcode: byte) {
    && m.DhcpMessage? && m.dstMac == mac && m.dhcp.opcode == opcode
    && m.srcPort == BOOTP_SERVER_PORT && m.dstPort == BOOTP_CLIENT_PORT
  }

  ghost predicate Asks(m: Message, h: HostState) {
    match h.phase
    case AwaitsOffer(_) => IsFrom(m, h.mac, DHCP_DISCOVER)
    case AwaitsAck(_) => IsFrom(m, h.mac, DHCP_REQUEST)
    case _ => false
  }

  ghost predicate Answers(m: Message, h: HostState) {
    match h.phase
    case AwaitsOffer(_) => IsTo(m, h.mac, DHCP_OFFER)
    case AwaitsAck(_) => IsTo(m, h.mac, DHCP_ACK)
    case _ => false
  }

  ghost predicate HasAnswer(s: System, mac: Mac)
    requires mac in s.hosts
  {
    exists m :: m in s.frames && Answers(m, s.hosts[mac])
  }

  /** The client waits for nothing, or its message or the answer to it is still on the network. */
  ghost predicate HasHope(s: System, mac: Mac)
    requires mac in s.hosts
  {
    || s.hosts[mac].phase.Idle? || s.hosts[mac].phase.Bound? || HasAnswer(s, mac)
    || exists m :: m in s.frames && Asks(m, s.hosts[mac])
  }

  // Without hope

  /** A step that leaves the client as it was and adds no frame useful to it brings no hope. */
  lemma NothingUsefulAdded(s: System, t: System, mac: Mac)
    requires mac in s.hosts && !HasHope(s, mac) && mac in t.hosts && t.hosts[mac] == s.hosts[mac]
    requires forall m :: m in t.frames && m !in s.frames ==> !Asks(m, s.hosts[mac]) && !Answers(m, s.hosts[mac])
    ensures t.hosts[mac].phase == s.hosts[mac].phase && !HasHope(t, mac)
  {
    forall m | m in t.frames
      ensures !Asks(m, t.hosts[mac]) && !Answers(m, t.hosts[mac])
    {
    }
  }

  /** Nothing that happens brings a useful frame back. */
  lemma NoHopeComesBack(s: System, t: System, gwMac: Mac, mac: Mac)
    requires Ok(s) && Step(s, t, gwMac) && mac in s.hosts && !HasHope(s, mac)
    ensures mac in t.hosts && t.hosts[mac].phase == s.hosts[mac].phase && !HasHope(t, mac)
  {
    assert s.hosts[mac].mac == mac;
    if other, m, kept :| HostTakes(s, t, other, m, kept) {
      TakenBringsNoHope(s, t, other, m, kept, mac);
    } else if m, unset, kept :| ServerTakes(s, t, gwMac, m, unset, kept) {
      AnswerBringsNoHope(s, t, gwMac, m, unset, kept, mac);
    } else {
      NothingUsefulAdded(s, t, mac);
    }
  }

  lemma TakenBringsNoHope(s: System, t: System, other: Mac, m: Message, kept: bool, mac: Mac)
    requires Ok(s) && HostTakes(s, t, other, m, kept) && mac in s.hosts && !HasHope(s, mac)
    ensures mac in t.hosts && t.hosts[mac].phase == s.hosts[mac].phase && !HasHope(t, mac)
  {
    assert MessageOk(s, m) && HostOk(s, s.hosts[mac]);
    assert !Answers(m, s.hosts[mac]) && !Asks(m, s.hosts[mac]);
  }

  lemma AnswerBringsNoHope(s: System, t: System, gwMac: Mac, m: Message, unset: u32, kept: bool, mac: Mac)
    requires Ok(s) && ServerTakes(s, t, gwMac, m, unset, kept) && mac in s.hosts && !HasHope(s, mac)
    ensures mac in t.hosts && t.hosts[mac].phase == s.hosts[mac].phase && !HasHope(t, mac)
  {
    assert MessageOk(s, m) && !Asks(m, s.hosts[mac]);
    if m.dhcp.opcode == DHCP_DISCOVER {
      OfferIsHeld(s.table, m.srcMac, unset);
    } else {
      HeldIsFound(s.table, m.srcMac, m.dhcp.yourIp, unset);
    }
  }

  ghost predicate Continues(run: seq<System>, whole: seq<System>, gwMac: Mac) {
    run != [] && IsRun(whole, gwMac) && run <= whole
  }

  function Last(run: seq<System>): System
    requires run != []
  {
    run[|run| - 1]
  }

  lemma {:induction false} NoHopeForGood(run: seq<System>, gwMac: Mac, mac: Mac, j: nat, k: nat)
    requires IsRun(run, gwMac) && j <= k < |run| && mac in run[j].hosts && !HasHope(run[j], mac)
    ensures mac in run[k].hosts && run[k].hosts[mac].phase == run[j].hosts[mac].phase && !HasHope(run[k], mac)
    decreases k - j
  {
    if j < k {
      RunStaysOk(run, gwMac, j);
      NoHopeComesBack(run[j], run[j + 1], gwMac, mac);
      NoHopeForGood(run, gwMac, mac, j + 1, k);
    }
  }

  // With hope, and taking each frame once

  /** A step that takes no frame it leaves on the network, and loses none. */
  ghost predicate ThriftyStep(s: System, t: System, gwMac: Mac) {
    || (exists mac, unset :: Discovers(s, t, mac, unset))
    || (exists mac, m :: HostTakes(s, t, mac, m, false))
    || (exists m, unset :: ServerTakes(s, t, gwMac, m, unset, false))
    || (exists mac, target :: AsksFor(s, t, mac, target))
  }

  /** `whole` goes on from `run` by such steps. */
  ghost predicate GoesOn(run: seq<System>, whole: seq<System>, gwMac: Mac) {
    && Continues(run, whole, gwMac)
    && forall i :: |run| - 1 <= i < |whole| - 1 ==> ThriftyStep(whole[i], whole[i + 1], gwMac)
  }

  lemma OneMore(base: seq<System>, run: seq<System>, next: System, gwMac: Mac) returns (longer: seq<System>)
    requires GoesOn(base, run, gwMac) && ThriftyStep(Last(run), next, gwMac)
    ensures GoesOn(base, longer, gwMac) && Last(longer) == next
  {
    longer := run + [next];
    assert Step(Last(run), next, gwMac);
  }

  /** The others are as they were, and keep their hope. */
  ghost predicate SparesOthers(s: System, t: System, mac: Mac) {
    && t.hosts.Keys == s.hosts.Keys
    && forall other :: other in s.hosts && other != mac ==>
         t.hosts[other] == s.hosts[other] && (HasHope(s, other) ==> HasHope(t, other))
  }

  lemma UsefulToOneOnly(m: Message, h: HostState, mac: Mac, opcode: byte)
    requires (Asks(m, h) || Answers(m, h)) && (IsFrom(m, mac, opcode) || IsTo(m, mac, opcode))
    ensures h.mac == mac
  {
    assert BOOTP_CLIENT_PORT != BOOTP_SERVER_PORT;
  }

  lemma FramesSpareOthers(s: System, t: System, mac: Mac, taken: Message, opcode: byte)
    requires Ok(s) && mac in s.hosts && t.hosts.Keys == s.hosts.Keys
    requires forall other :: other in s.hosts && other != mac ==> t.hosts[other] == s.hosts[other]
    requires s.frames - {taken} <= t.frames && (IsFrom(taken, mac, opcode) || IsTo(taken, mac, opcode))
    ensures SparesOthers(s, t, mac)
  {
    forall other | other in s.hosts && other != mac && HasHope(s, other)
      ensures HasHope(t, other)
    {
      var h := s.hosts[other];
      assert h.mac == other;
      if !h.phase.Idle? && !h.phase.Bound? {
        var m :| m in s.frames && (Asks(m, h) || Answers(m, h));
        if m == taken {
          UsefulToOneOnly(m, h, mac, opcode);
        }
        assert m in t.frames;
      }
    }
  }

  /** The server answers a client's message, which is spent. */
  lemma ServerAnswers(s: System, gwMac: Mac, mac: Mac, m: Message) returns (t: System)
    requires Ok(s) && mac in s.hosts && m in s.frames && Asks(m, s.hosts[mac])
    ensures ServerTakes(s, t, gwMac, m, 0, false) && t.hosts == s.hosts
    ensures HasAnswer(t, mac) && SparesOthers(s, t, mac)
  {
    assert MessageOk(s, m) && s.hosts[mac].mac == mac;
    if m.dhcp.opcode == DHCP_DISCOVER {
      OfferIsHeld(s.table, mac, 0);
    } else {
      HeldIsFound(s.table, mac, m.dhcp.yourIp, 0);
    }
    var answer := ServerReply(gwMac, s.table, mac, m.dhcp, 0).value;
    t := System(TableAfter(s.table, mac, m.dhcp.opcode, 0), s.hosts, s.frames - {m} + {answer});
    assert answer in t.frames && Answers(answer, t.hosts[mac]);
    FramesSpareOthers(s, t, mac, m, m.dhcp.opcode);
  }

  /** The client takes the answer, and sends its next message or has its address. */
  lemma ClientTakesAnswer(s: System, mac: Mac, m: Message) returns (t: System)
    requires Ok(s) && mac in s.hosts && m in s.frames && Answers(m, s.hosts[mac])
    ensures HostTakes(s, t, mac, m, false) && SparesOthers(s, t, mac) && HasHope(t, mac)
    ensures PhasesLeft(t.hosts[mac]) < PhasesLeft(s.hosts[mac])
  {
    var h := s.hosts[mac];
    assert h.mac == mac && HostOk(s, h);
    t := System(s.table, s.hosts[mac := StateAfter(h, m)], Added(s.frames - {m}, SentOn(h, m)));
    if h.phase.AwaitsOffer? {
      var request := FromClient(mac, RequestFor(m.dhcp));
      assert request in t.frames && Asks(request, t.hosts[mac]);
    }
    FramesSpareOthers(s, t, mac, m, m.dhcp.opcode);
  }

  lemma ClientDiscovers(s: System, mac: Mac) returns (t: System)
    requires Ok(s) && mac in s.hosts && s.hosts[mac].phase.Idle?
    ensures Discovers(s, t, mac, 0) && SparesOthers(s, t, mac) && HasHope(t, mac)
    ensures PhasesLeft(t.hosts[mac]) < PhasesLeft(s.hosts[mac])
  {
    var m := FromClient(mac, FirstMessage(0));
    assert s.hosts[mac].mac == mac;
    t := System(s.table, s.hosts[mac := s.hosts[mac].(phase := AwaitsOffer(FirstMessage(0)))], s.frames + {m});
    assert m in t.frames && Asks(m, t.hosts[mac]);
    FramesSpareOthers(s, t, mac, m, m.dhcp.opcode);
  }

  function PhasesLeft(h: HostState): nat {
    match h.phase
    case Idle => 3
    case AwaitsOffer(_) => 2
    case AwaitsAck(_) => 1
    case Bound => 0
  }

  /** One step further on the way of one client to its address. */
  lemma Further(s: System, gwMac: Mac, mac: Mac) returns (t: System)
    requires Ok(s) && mac in s.hosts && HasHope(s, mac) && !s.hosts[mac].phase.Bound?
    ensures ThriftyStep(s, t, gwMac) && Ok(t) && SparesOthers(s, t, mac) && mac in t.hosts && HasHope(t, mac)
    ensures PhasesLeft(t.hosts[mac]) < PhasesLeft(s.hosts[mac])
            || (t.hosts == s.hosts && HasAnswer(t, mac) && !HasAnswer(s, mac))
  {
    if s.hosts[mac].phase.Idle? {
      t := ClientDiscovers(s, mac);
    } else if m :| m in s.frames && Answers(m, s.hosts[mac]) {
      t := ClientTakesAnswer(s, mac, m);
    } else {
      var m :| m in s.frames && Asks(m, s.hosts[mac]);
      t := ServerAnswers(s, gwMac, mac, m);
    }
    assert Step(s, t, gwMac);
    StepKeepsOk(s, t, gwMac);
  }

  lemma {:induction false} FinishFrom(base: seq<System>, run: seq<System>, gwMac: Mac, mac: Mac, s: System)
    returns (whole: seq<System>)
    requires GoesOn(base, run, gwMac) && s == Last(run) && Ok(s) && mac in s.hosts && HasHope(s, mac)
    ensures GoesOn(base, whole, gwMac) && Ok(Last(whole)) && SparesOthers(s, Last(whole), mac)
    ensures mac in Last(whole).hosts && Last(whole).hosts[mac].phase.Bound?
    decreases PhasesLeft(s.hosts[mac]), if HasAnswer(s, mac) then 0 else 1
  {
    if s.hosts[mac].phase.Bound? {
      whole := run;
    } else {
      var t := Further(s, gwMac, mac);
      var longer := OneMore(base, run, t, gwMac);
      whole := FinishFrom(base, longer, gwMac, mac, t);
    }
  }

  ghost predicate CanGetAddress(run: seq<System>, gwMac: Mac, mac: Mac) {
    exists whole :: Continues(run, whole, gwMac) && mac in Last(whole).hosts && Last(whole).hosts[mac].ip.Some?
  }

  /** With hope, a client gets its address by steps that take each frame once and lose none. */
  lemma HopeIsFulfilled(run: seq<System>, gwMac: Mac, mac: Mac) returns (whole: seq<System>)
    requires IsRun(run, gwMac) && mac in CLIENTS
    requires mac in Last(run).hosts && HasHope(Last(run), mac)
    ensures GoesOn(run, whole, gwMac) && mac in Last(whole).hosts && Last(whole).hosts[mac].ip.Some?
  {
    RunStaysOk(run, gwMac, |run| - 1);
    whole := FinishFrom(run, run, gwMac, mac, Last(run));
    assert HostOk(Last(whole), Last(whole).hosts[mac]);
  }

  /** A client can still get an address exactly when it waits for nothing, or its message or the server's
      answer to it is still on the network. */
  lemma CanGetAddressIff(run: seq<System>, gwMac: Mac, mac: Mac)
    requires IsRun(run, gwMac) && mac in CLIENTS
    ensures mac in Last(run).hosts
    ensures CanGetAddress(run, gwMac, mac) <==> HasHope(Last(run), mac)
  {
    RunStaysOk(run, gwMac, |run| - 1);
    if HasHope(Last(run), mac) {
      var whole := HopeIsFulfilled(run, gwMac, mac);
    } else {
      forall whole | Continues(run, whole, gwMac)
        ensures mac in Last(whole).hosts && Last(whole).hosts[mac].ip.None?
      {
        NoHopeForGood(whole, gwMac, mac, |run| - 1, |whole| - 1);
        RunStaysOk(whole, gwMac, |whole| - 1);
        assert HostOk(Last(whole), Last(whole).hosts[mac]);
      }
    }
  }

  /** The loss of one frame is enough: a client whose first message is lost waits for ever. */
  lemma OneLossIsEnough(gwMac: Mac, mac: Mac) returns (run: seq<System>)
    requires mac in CLIENTS
    ensures IsRun(run, gwMac) && |run| == 3 && !CanGetAddress(run, gwMac, mac)
  {
    var hosts := map[FIRST_MAC := FreshHost(FIRST_MAC), SECOND_MAC := FreshHost(SECOND_MAC)];
    var m := FromClient(mac, FirstMessage(0));
    var waiting := hosts[mac := hosts[mac].(phase := AwaitsOffer(FirstMessage(0)))];
    var s0, s1, s2 := System([], hosts, {}), System([], waiting, {m}), System([], waiting, {});
    run := [s0, s1, s2];
    assert Discovers(s0, s1, mac, 0) && Loses(s1, s2, m);
    CanGetAddressIff(run, gwMac, mac);
  }

  // Each other's addresses

  lemma {:induction false} CachedAfterAppend(cache: seq<ArpEntry>, e: ArpEntry, ip: u32)
    requires forall k :: 0 <= k < |cache| ==> cache[k].mac != BROADCAST_MAC
    ensures CachedMac(cache + [e], ip)
            == if CachedMac(cache, ip) == BROADCAST_MAC && e.ip == ip then e.mac else CachedMac(cache, ip)
  {
    if cache == [] {
      assert [e][1..] == [];
    } else {
      assert (cache + [e])[1..] == cache[1..] + [e];
      CachedAfterAppend(cache[1..], e, ip);
    }
  }

  /** The client at `mac` finds the other one, at `other`, in its cache. */
  ghost predicate Finds(s: System, mac: Mac, other: Mac) {
    && mac in s.hosts && other in s.hosts && s.hosts[other].ip.Some?
    && CachedMac(s.hosts[mac].cache, s.hosts[other].ip.value) == other
  }

  lemma OneOwner(s: System, mac: Mac, other: Mac, ip: u32)
    requires Ok(s) && Adopted(s.hosts, mac, ip) && Adopted(s.hosts, other, ip)
    ensures mac == other
  {
    HeldIsFound(s.table, mac, ip, 0);
    HeldIsFound(s.table, other, ip, 0);
    FoundEntry(s.table, mac, 0);
    FoundEntry(s.table, other, 0);
  }

  lemma CachedAreClients(s: System, mac: Mac, k: nat)
    requires Ok(s) && mac in s.hosts && k < |s.hosts[mac].cache|
    ensures s.hosts[mac].cache[k].mac != BROADCAST_MAC
  {
    assert HostOk(s, s.hosts[mac]) && Adopted(s.hosts, s.hosts[mac].cache[k].mac, s.hosts[mac].cache[k].ip);
  }

  /** A host knows where a client is after taking a message for its address from it, or if it did before. */
  lemma FoundAfterTaking(s: System, mac: Mac, arp: Arp, other: Mac, ip: u32)
    requires Ok(s) && mac in s.hosts && Adopted(s.hosts, arp.senderMac, arp.senderIp) && Adopted(s.hosts, other, ip)
    ensures CachedMac(CacheAfter(s.hosts[mac], arp), ip) == other
            <==> CachedMac(s.hosts[mac].cache, ip) == other
                 || (Some(arp.targetIp) == s.hosts[mac].ip && arp.senderMac == other)
  {
    var cache := s.hosts[mac].cache;
    forall k | 0 <= k < |cache|
      ensures cache[k].mac != BROADCAST_MAC
    {
      CachedAreClients(s, mac, k);
    }
    CachedAfterAppend(cache, ArpEntry(arp.senderIp, arp.senderMac), ip);
    if CachedMac(cache, ip) != BROADCAST_MAC {
      CachedIsIn(cache, ip);
      assert Adopted(s.hosts, CachedMac(cache, ip), ip);
      OneOwner(s, CachedMac(cache, ip), other, ip);
    }
    if arp.senderIp == ip {
      OneOwner(s, arp.senderMac, other, ip);
    }
  }

  /** A frame from the other client for this one's address, which its holder takes. */
  ghost predicate Tells(m: Message, h: HostState, other: Mac) {
    m.ArpMessage? && IsFor(h, m) && Some(m.arp.targetIp) == h.ip && m.arp.senderMac == other
  }

  /** A request of the client at `mac` for the address of the host `g`. */
  ghost predicate AsksArp(m: Message, mac: Mac, g: HostState) {
    && m.ArpMessage? && IsFor(g, m) && Some(m.arp.targetIp) == g.ip
    && m.arp.senderMac == mac && m.arp.opcode == ARP_REQUEST
  }

  /** The lookup has ended, or its request or something to learn from is still on the network. */
  ghost predicate LookupHasHope(s: System, mac: Mac, other: Mac)
    requires mac in s.hosts && other in s.hosts
  {
    || Finds(s, mac, other)
    || (exists m :: m in s.frames && Tells(m, s.hosts[mac], other))
    || (exists m :: m in s.frames && AsksArp(m, mac, s.hosts[other]))
  }

  ghost predicate BothBound(s: System, mac: Mac, other: Mac) {
    mac in s.hosts && other in s.hosts && mac != other && s.hosts[mac].ip.Some? && s.hosts[other].ip.Some?
  }

  ghost predicate SameForArp(h: HostState, g: HostState) {
    g.mac == h.mac && g.ip == h.ip && g.cache == h.cache
  }

  lemma NoArpAdded(s: System, t: System, mac: Mac, other: Mac)
    requires BothBound(s, mac, other) && !LookupHasHope(s, mac, other) && t.hosts.Keys == s.hosts.Keys
    requires SameForArp(s.hosts[mac], t.hosts[mac]) && SameForArp(s.hosts[other], t.hosts[other])
    requires forall m :: m in t.frames && m.ArpMessage? ==> m in s.frames
    ensures BothBound(t, mac, other) && !LookupHasHope(t, mac, other)
  {
    forall m | m in t.frames
      ensures !Tells(m, t.hosts[mac], other) && !AsksArp(m, mac, t.hosts[other])
    {
    }
  }

  lemma NobodyIsIdle(s: System, mac: Mac, other: Mac)
    requires Ok(s) && BothBound(s, mac, other)
    ensures forall host :: host in s.hosts ==> !s.hosts[host].phase.Idle?
  {
    assert HostOk(s, s.hosts[mac]) && HostOk(s, s.hosts[other]);
  }

  lemma ServerBringsNoLookupHope(s: System, t: System, gwMac: Mac, m: Message, unset: u32, kept: bool,
                                 mac: Mac, other: Mac)
    requires ServerTakes(s, t, gwMac, m, unset, kept) && BothBound(s, mac, other) && !LookupHasHope(s, mac, other)
    ensures BothBound(t, mac, other) && !LookupHasHope(t, mac, other)
  {
    NoArpAdded(s, t, mac, other);
  }

  /** While neither asks again, nothing brings hope back. */
  lemma NoLookupHopeComesBack(s: System, t: System, gwMac: Mac, mac: Mac, other: Mac)
    requires Ok(s) && QuietStep(s, t, gwMac) && BothBound(s, mac, other) && !LookupHasHope(s, mac, other)
    ensures BothBound(t, mac, other) && !LookupHasHope(t, mac, other)
  {
    if host, m, kept :| HostTakes(s, t, host, m, kept) {
      TakenBringsNoLookupHope(s, t, host, m, kept, mac, other);
    } else if m, unset, kept :| ServerTakes(s, t, gwMac, m, unset, kept) {
      ServerBringsNoLookupHope(s, t, gwMac, m, unset, kept, mac, other);
    } else {
      NobodyIsIdle(s, mac, other);
      assert t.hosts == s.hosts && t.frames <= s.frames;
      NoArpAdded(s, t, mac, other);
    }
  }

  lemma TakenFindsNothing(s: System, t: System, host: Mac, m: Message, kept: bool, mac: Mac, other: Mac)
    requires Ok(s) && HostTakes(s, t, host, m, kept) && BothBound(s, mac, other) && !LookupHasHope(s, mac, other)
    requires BothBound(t, mac, other) && t.hosts[other].ip == s.hosts[other].ip
    ensures !Finds(t, mac, other)
  {
    assert MessageOk(s, m) && !Tells(m, s.hosts[mac], other);
    if m.ArpMessage? && host == mac && IsFor(s.hosts[mac], m) {
      FoundAfterTaking(s, mac, m.arp, other, s.hosts[other].ip.value);
    }
  }

  lemma ReplyTellsNothing(s: System, host: Mac, m: Message, mac: Mac, other: Mac)
    requires Ok(s) && host in s.hosts && m in s.frames && BothBound(s, mac, other) && !LookupHasHope(s, mac, other)
    ensures var reply := SentOn(s.hosts[host], m);
            reply.Some? ==> !Tells(reply.value, s.hosts[mac], other) && !AsksArp(reply.value, mac, s.hosts[other])
  {
    assert MessageOk(s, m) && s.hosts[host].mac == host;
    if m.ArpMessage? {
      assert !AsksArp(m, mac, s.hosts[other]);
      OwnAddress(s, m.arp, mac, other);
    }
  }

  lemma TakenBringsNoLookupHope(s: System, t: System, host: Mac, m: Message, kept: bool, mac: Mac, other: Mac)
    requires Ok(s) && HostTakes(s, t, host, m, kept) && BothBound(s, mac, other) && !LookupHasHope(s, mac, other)
    ensures BothBound(t, mac, other) && !LookupHasHope(t, mac, other)
  {
    HostTakesKeepsOk(s, t, host, m, kept);
    assert HostExtends(s.hosts[mac], t.hosts[mac]) && HostExtends(s.hosts[other], t.hosts[other]);
    TakenFindsNothing(s, t, host, m, kept, mac, other);
    ReplyTellsNothing(s, host, m, mac, other);
    forall d | d in t.frames
      ensures !Tells(d, t.hosts[mac], other) && !AsksArp(d, mac, t.hosts[other])
    {
      assert d in s.frames || Some(d) == SentOn(s.hosts[host], m);
    }
  }

  /** Nobody but `mac` sends for an address of `mac`'s, so an answer to it comes from one of the two. */
  lemma OwnAddress(s: System, arp: Arp, mac: Mac, other: Mac)
    requires Ok(s) && BothBound(s, mac, other) && Adopted(s.hosts, arp.senderMac, arp.senderIp)
    ensures arp.senderMac == mac || arp.senderMac == other
    ensures Some(arp.senderIp) == s.hosts[mac].ip <==> arp.senderMac == mac
    ensures s.hosts[mac].ip != s.hosts[other].ip
  {
    assert mac in CLIENTS && other in CLIENTS && arp.senderMac in CLIENTS;
    if s.hosts[mac].ip == s.hosts[other].ip {
      OneOwner(s, mac, other, s.hosts[mac].ip.value);
    }
    if Some(arp.senderIp) == s.hosts[mac].ip {
      OneOwner(s, mac, arp.senderMac, arp.senderIp);
    }
  }

  /** `whole` goes on from `run` without a new request. */
  ghost predicate GoesOnQuietly(run: seq<System>, whole: seq<System>, gwMac: Mac) {
    && Continues(run, whole, gwMac)
    && forall i :: |run| - 1 <= i < |whole| - 1 ==> QuietStep(whole[i], whole[i + 1], gwMac)
  }

  ghost predicate LookupCanEnd(run: seq<System>, gwMac: Mac, mac: Mac, other: Mac) {
    exists whole :: GoesOnQuietly(run, whole, gwMac) && Finds(Last(whole), mac, other)
  }

  lemma {:induction false} NoLookupHopeForGood(run: seq<System>, gwMac: Mac, mac: Mac, other: Mac, j: nat, k: nat)
    requires IsRun(run, gwMac) && j <= k < |run|
    requires forall i :: j <= i < |run| - 1 ==> QuietStep(run[i], run[i + 1], gwMac)
    requires BothBound(run[j], mac, other) && !LookupHasHope(run[j], mac, other)
    ensures BothBound(run[k], mac, other) && !LookupHasHope(run[k], mac, other)
    decreases k - j
  {
    if j < k {
      RunStaysOk(run, gwMac, j);
      NoLookupHopeComesBack(run[j], run[j + 1], gwMac, mac, other);
      NoLookupHopeForGood(run, gwMac, mac, other, j + 1, k);
    }
  }

  /** A host takes a frame, which is spent. */
  lemma Take(s: System, mac: Mac, m: Message) returns (t: System)
    requires Ok(s) && mac in s.hosts && m in s.frames
    ensures HostTakes(s, t, mac, m, false) && Ok(t) && Extends(s, t)
  {
    t := System(s.table, s.hosts[mac := StateAfter(s.hosts[mac], m)], Added(s.frames - {m}, SentOn(s.hosts[mac], m)));
    HostTakesKeepsOk(s, t, mac, m, false);
  }

  lemma TellingIsFinding(s: System, mac: Mac, other: Mac, m: Message) returns (t: System)
    requires Ok(s) && BothBound(s, mac, other) && m in s.frames && Tells(m, s.hosts[mac], other)
    ensures HostTakes(s, t, mac, m, false) && Ok(t) && BothBound(t, mac, other) && Finds(t, mac, other)
    ensures Finds(s, other, mac) ==> Finds(t, other, mac)
  {
    assert MessageOk(s, m);
    t := Take(s, mac, m);
    assert HostExtends(s.hosts[mac], t.hosts[mac]);
    FoundAfterTaking(s, mac, m.arp, other, s.hosts[other].ip.value);
  }

  /** The owner of the address takes a request, knows the asker from it, and answers. */
  lemma AskingIsTold(s: System, mac: Mac, other: Mac, m: Message) returns (t: System, reply: Message)
    requires Ok(s) && BothBound(s, mac, other) && m in s.frames && AsksArp(m, mac, s.hosts[other])
    ensures HostTakes(s, t, other, m, false) && Ok(t) && BothBound(t, mac, other) && Finds(t, other, mac)
    ensures reply in t.frames && Tells(reply, t.hosts[mac], other)
  {
    assert MessageOk(s, m) && s.hosts[mac].mac == mac && s.hosts[other].mac == other;
    OwnAddress(s, m.arp, mac, other);
    t := Take(s, other, m);
    assert HostExtends(s.hosts[other], t.hosts[other]);
    FoundAfterTaking(s, other, m.arp, mac, s.hosts[mac].ip.value);
    reply := ArpAnswer(s.hosts[other], m.arp).value;
  }

  lemma OneMoreQuiet(base: seq<System>, run: seq<System>, next: System, gwMac: Mac) returns (longer: seq<System>)
    requires GoesOnQuietly(base, run, gwMac) && QuietStep(Last(run), next, gwMac)
    ensures GoesOnQuietly(base, longer, gwMac) && Last(longer) == next
  {
    longer := run + [next];
    assert Step(Last(run), next, gwMac);
  }

  lemma LookupHopeIsFulfilled(run: seq<System>, gwMac: Mac, mac: Mac, other: Mac) returns (whole: seq<System>)
    requires IsRun(run, gwMac) && BothBound(Last(run), mac, other) && LookupHasHope(Last(run), mac, other)
    ensures GoesOnQuietly(run, whole, gwMac) && Finds(Last(whole), mac, other)
  {
    var s := Last(run);
    RunStaysOk(run, gwMac, |run| - 1);
    whole := run;
    if !Finds(s, mac, other) {
      var m: Message;
      if told :| told in s.frames && Tells(told, s.hosts[mac], other) {
        m := told;
      } else {
        var asked :| asked in s.frames && AsksArp(asked, mac, s.hosts[other]);
        var t;
        t, m := AskingIsTold(s, mac, other, asked);
        whole := OneMoreQuiet(run, whole, t, gwMac);
        s := t;
      }
      var u := TellingIsFinding(s, mac, other, m);
      whole := OneMoreQuiet(run, whole, u, gwMac);
    }
  }

  /** A process that has asked once and waits for the cache can come to an end, if nobody asks again,
      exactly when its request or something else to learn from is still on the network. */
  lemma LookupCanEndIff(run: seq<System>, gwMac: Mac, mac: Mac, other: Mac)
    requires IsRun(run, gwMac) && BothBound(Last(run), mac, other)
    ensures LookupCanEnd(run, gwMac, mac, other) <==> LookupHasHope(Last(run), mac, other)
  {
    if LookupHasHope(Last(run), mac, other) {
      var whole := LookupHopeIsFulfilled(run, gwMac, mac, other);
    } else {
      forall whole | GoesOnQuietly(run, whole, gwMac)
        ensures !Finds(Last(whole), mac, other)
      {
        NoLookupHopeForGood(whole, gwMac, mac, other, |run| - 1, |whole| - 1);
      }
    }
  }

  /** One request, taken by the owner of the address, and its answer, taken by the asker. */
  lemma ArpFindsOwner(s: System, gwMac: Mac, asker: Mac, owner: Mac) returns (s1: System, s2: System, s3: System)
    requires Ok(s) && BothBound(s, asker, owner)
    ensures ThriftyStep(s, s1, gwMac) && ThriftyStep(s1, s2, gwMac) && ThriftyStep(s2, s3, gwMac) && Ok(s3)
    ensures Finds(s3, asker, owner) && Finds(s3, owner, asker)
  {
    var target := s.hosts[owner].ip.value;
    var request := ArpRequest(s.hosts[asker], target);
    s1 := s.(frames := s.frames + {request});
    assert AsksFor(s, s1, asker, target);
    StepKeepsOk(s, s1, gwMac);
    assert s.hosts[asker].mac == asker;
    var reply;
    s2, reply := AskingIsTold(s1, asker, owner, request);
    s3 := TellingIsFinding(s2, asker, owner, reply);
  }

  ghost predicate EachFindsTheOther(s: System) {
    Finds(s, FIRST_MAC, SECOND_MAC) && Finds(s, SECOND_MAC, FIRST_MAC)
  }

  ghost predicate ClientsCanMeet(run: seq<System>, gwMac: Mac) {
    exists whole :: Continues(run, whole, gwMac) && EachFindsTheOther(Last(whole))
  }

  lemma HopefulClientsMeet(run: seq<System>, gwMac: Mac) returns (whole: seq<System>)
    requires IsRun(run, gwMac) && Last(run).hosts.Keys == CLIENTS
    requires HasHope(Last(run), FIRST_MAC) && HasHope(Last(run), SECOND_MAC)
    ensures GoesOn(run, whole, gwMac) && EachFindsTheOther(Last(whole))
  {
    assert FIRST_MAC[0] != SECOND_MAC[0];
    RunStaysOk(run, gwMac, |run| - 1);
    var first := FinishFrom(run, run, gwMac, FIRST_MAC, Last(run));
    var both := FinishFrom(run, first, gwMac, SECOND_MAC, Last(first));
    var s := Last(both);
    assert HostOk(s, s.hosts[FIRST_MAC]) && HostOk(s, s.hosts[SECOND_MAC]);
    var s1, s2, s3 := ArpFindsOwner(s, gwMac, FIRST_MAC, SECOND_MAC);
    whole := OneMore(run, both, s1, gwMac);
    whole := OneMore(run, whole, s2, gwMac);
    whole := OneMore(run, whole, s3, gwMac);
  }

  /** Both clients can still get addresses and find each other, asking if need be, exactly when neither has
      lost the frame it waits on. */
  lemma ClientsCanMeetIff(run: seq<System>, gwMac: Mac)
    requires IsRun(run, gwMac)
    ensures Last(run).hosts.Keys == CLIENTS
    ensures ClientsCanMeet(run, gwMac) <==> HasHope(Last(run), FIRST_MAC) && HasHope(Last(run), SECOND_MAC)
  {
    CanGetAddressIff(run, gwMac, FIRST_MAC);
    CanGetAddressIff(run, gwMac, SECOND_MAC);
    RunStaysOk(run, gwMac, |run| - 1);
    if HasHope(Last(run), FIRST_MAC) && HasHope(Last(run), SECOND_MAC) {
      var whole := HopefulClientsMeet(run, gwMac);
    }
  }
}
