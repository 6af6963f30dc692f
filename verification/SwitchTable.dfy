/** Hardware addresses, as addressing.cpp compares them. */
module Addressing {
  import opened Bytes

  type Mac = m: seq<byte> | |m| == 6 witness [0, 0, 0, 0, 0, 0]

  const BROADCAST_MAC: Mac := UniformMac(0xFF)

  function UniformMac(b: byte): Mac {
    [b, b, b, b, b, b]
  }
}

/** A frame as switches see it. `id` tells frames apart; nothing in the network reads it. */
module Frames {
  import opened Addressing
  import opened Bytes

  datatype Frame = Frame(id: nat, src: Mac, dst: Mac, payload: seq<byte>)
}

/** The values a switch table goes through: rows of one interface and the addresses learned on it. */
module SwitchTable {
  import opened Addressing
  import opened Frames

  datatype Row = Row(port: nat, macs: seq<Mac>)
  type Table = seq<Row>

  /** The partial map from address to interface that the rows stand for; an earlier row wins. */
  function View(t: Table): map<Mac, nat> {
    if t == [] then map[] else View(t[1..]) + Bindings(t[0])
  }

  function Bindings(row: Row): map<Mac, nat> {
    map m | m in row.macs :: row.port
  }

  /** The interface of an address, or -1 when it is unknown or the broadcast address. */
  function Lookup(t: Table, m: Mac): int {
    if m != BROADCAST_MAC && m in View(t) then View(t)[m] else -1
  }

  /** The address joins the first row of its interface, or a new last row. */
  function AddEntry(t: Table, m: Mac, port: nat): Table {
    if t == [] then [Row(port, [m])]
    else if t[0].port == port then [t[0].(macs := t[0].macs + [m])] + t[1..]
    else [t[0]] + AddEntry(t[1..], m, port)
  }

  /** What receiving a frame from `m` on `port` does to the table: first seen wins. */
  function Learn(t: Table, m: Mac, port: nat): Table {
    if Lookup(t, m) == -1 then AddEntry(t, m, port) else t
  }

  /** The interfaces a popped frame goes out on: its destination's when known, else all but its source's. */
  function OutPorts(t: Table, ports: nat, f: Frame): seq<nat> {
    if Lookup(t, f.dst) != -1 then [Lookup(t, f.dst)] else FloodPorts(ports, Lookup(t, f.src))
  }

  function FloodPorts(ports: nat, except: int): seq<nat> {
    if ports == 0 then []
    else FloodPorts(ports - 1, except) + if ports - 1 != except then [ports - 1] else []
  }

  ghost predicate RowHas(t: Table, i: int, j: int, m: Mac) {
    0 <= i < |t| && 0 <= j < |t[i].macs| && t[i].macs[j] == m
  }

  /** Each interface has one row, and each address stands in one place of one row. */
  ghost predicate WellFormed(t: Table) {
    && (forall i, k :: 0 <= i < k < |t| ==> t[i].port != t[k].port)
    && (forall m, i, j, k, l :: RowHas(t, i, j, m) && RowHas(t, k, l, m) ==> i == k && j == l)
  }

  lemma {:induction false} ViewHas(t: Table, m: Mac)
    ensures m in View(t) <==> exists i, j :: RowHas(t, i, j, m)
    ensures m in View(t) ==> exists i, j :: RowHas(t, i, j, m) && t[i].port == View(t)[m]
  {
    if t != [] {
      ViewHas(t[1..], m);
      if m in t[0].macs {
        var j :| 0 <= j < |t[0].macs| && t[0].macs[j] == m;
        assert RowHas(t, 0, j, m);
      } else {
        if m in View(t[1..]) {
          var i, j :| RowHas(t[1..], i, j, m) && t[1..][i].port == View(t[1..])[m];
          assert RowHas(t, i + 1, j, m);
        }
        if i, j :| RowHas(t, i, j, m) {
          assert RowHas(t[1..], i - 1, j, m);
        }
      }
    }
  }

  lemma OneMoreBinding(row: Row, m: Mac)
    ensures Bindings(row.(macs := row.macs + [m])) == Bindings(row)[m := row.port]
  {
  }

  lemma {:induction false} AddEntryBinds(t: Table, m: Mac, port: nat)
    requires m !in View(t)
    ensures View(AddEntry(t, m, port)) == View(t)[m := port]
  {
    if t == [] {
      assert AddEntry(t, m, port)[1..] == [];
      assert Bindings(Row(port, [m])) == map[m := port];
    } else if t[0].port == port {
      OneMoreBinding(t[0], m);
      assert AddEntry(t, m, port)[1..] == t[1..];
      BindAbove(View(t[1..]), Bindings(t[0]), m, port);
    } else {
      AddEntryBinds(t[1..], m, port);
      BindBelow(View(t[1..]), Bindings(t[0]), m, port);
      assert AddEntry(t, m, port)[1..] == AddEntry(t[1..], m, port);
    }
  }

  lemma BindBelow(rest: map<Mac, nat>, first: map<Mac, nat>, m: Mac, port: nat)
    requires m !in first
    ensures rest[m := port] + first == (rest + first)[m := port]
  {
  }

  lemma BindAbove(rest: map<Mac, nat>, first: map<Mac, nat>, m: Mac, port: nat)
    ensures rest + first[m := port] == (rest + first)[m := port]
  {
  }

  /** Learning refines a first-write-wins update of the partial map: no binding ever changes. */
  lemma {:induction false} LearnRefinesMap(t: Table, m: Mac, port: nat)
    requires m != BROADCAST_MAC
    ensures View(Learn(t, m, port)) == if m in View(t) then View(t) else View(t)[m := port]
  {
    if m !in View(t) {
      AddEntryBinds(t, m, port);
    }
  }

  /** `AddEntry` in terms of the first row of the interface, if there is one. */
  lemma {:induction false} AddEntryAtFirstRow(t: Table, m: Mac, port: nat, i: nat)
    requires i <= |t| && forall k :: 0 <= k < i ==> t[k].port != port
    ensures i == |t| ==> AddEntry(t, m, port) == t + [Row(port, [m])]
    ensures i < |t| && t[i].port == port ==> AddEntry(t, m, port) == t[i := t[i].(macs := t[i].macs + [m])]
  {
    if i > 0 {
      AddEntryAtFirstRow(t[1..], m, port, i - 1);
    }
  }

  /** The row that `AddEntry` extends, or `|t|` when it appends one. */
  function FirstRow(t: Table, port: nat): (i: nat)
    ensures i <= |t| && (i < |t| ==> t[i].port == port)
    ensures forall k :: 0 <= k < i ==> t[k].port != port
  {
    if t == [] || t[0].port == port then 0 else 1 + FirstRow(t[1..], port)
  }

  /** Which places of the new table hold an address: those of the old one, plus one for `m`. */
  lemma AddEntryPlaces(t: Table, m: Mac, port: nat) returns (i: nat, j: nat)
    ensures !RowHas(t, i, j, m) && RowHas(AddEntry(t, m, port), i, j, m)
    ensures forall k, l, n ::
              RowHas(AddEntry(t, m, port), k, l, n) <==> RowHas(t, k, l, n) || (k == i && l == j && n == m)
  {
    i := FirstRow(t, port);
    j := if i < |t| then |t[i].macs| else 0;
    AddEntryAtFirstRow(t, m, port, i);
  }

  /** The table stays well formed, unless a frame claims the broadcast address as its source for a
      second time: a broadcast source is never found, so it is added again. */
  lemma LearnKeepsWellFormedIff(t: Table, m: Mac, port: nat)
    requires WellFormed(t)
    ensures WellFormed(Learn(t, m, port)) <==> !(m == BROADCAST_MAC && m in View(t))
  {
    ViewHas(t, m);
    if Lookup(t, m) == -1 {
      AddEntryAtFirstRow(t, m, port, FirstRow(t, port));
      var i, j := AddEntryPlaces(t, m, port);
      if k, l :| RowHas(t, k, l, m) {
        assert RowHas(AddEntry(t, m, port), k, l, m) && RowHas(AddEntry(t, m, port), i, j, m);
      }
    }
  }

  /** Flooding uses every interface once, in order, except one. */
  lemma {:induction false} FloodPortsAreAllButOne(ports: nat, except: int)
    ensures forall p: nat :: p in FloodPorts(ports, except) <==> p < ports && p != except
    ensures var out := FloodPorts(ports, except); forall i, k :: 0 <= i < k < |out| ==> out[i] < out[k]
    ensures |FloodPorts(ports, except)| == if 0 <= except < ports then ports - 1 else ports
  {
    if ports > 0 {
      FloodPortsAreAllButOne(ports - 1, except);
      var rest := FloodPorts(ports - 1, except);
      forall i | 0 <= i < |rest|
        ensures rest[i] < ports - 1
      {
        assert rest[i] in rest;
      }
    }
  }
}

/** The switch of networking_devices.cpp: a table that its methods grow in place, and its frame queue. */
module LearningSwitch {
  import opened Addressing
  import opened Frames
  import opened SwitchTable
  import opened WorkQueue

  class TableEntry {
    var interfaceNumber: nat
    var addressList: seq<Mac>

    constructor (interfaceNumber: nat, first: Mac)
      ensures Value() == Row(interfaceNumber, [first])
    {
      this.interfaceNumber := interfaceNumber;
      this.addressList := [first];
    }

    function Value(): Row
      reads this
    {
      Row(interfaceNumber, addressList)
    }
  }

  class Switch {
    var switchTable: seq<TableEntry>
    var interfaces: nat // the size of tx_interfaces
    const frameQueue: WQueue<Frame>

    /** No entry object stands in the table twice. */
    ghost predicate Valid()
      reads this
    {
      forall i, k :: 0 <= i < k < |switchTable| ==> switchTable[i] != switchTable[k]
    }

    ghost function Contents(): (t: Table)
      reads this, switchTable
      ensures |t| == |switchTable| && forall i :: 0 <= i < |t| ==> t[i] == switchTable[i].Value()
    {
      Values(switchTable)
    }

    static ghost function Values(entries: seq<TableEntry>): (t: Table)
      reads entries
      ensures |t| == |entries| && forall i :: 0 <= i < |t| ==> t[i] == entries[i].Value()
    {
      if entries == [] then [] else [entries[0].Value()] + Values(entries[1..])
    }

    constructor (interfaces: nat)
      ensures Valid() && Contents() == [] && this.interfaces == interfaces
      ensures fresh(frameQueue) && frameQueue.queue == [] && frameQueue.maxEntries == MAX_QUEUE_LENGTH
    {
      this.switchTable := [];
      this.interfaces := interfaces;
      this.frameQueue := new WQueue();
    }

    method GetTableInterfaceNumber(mac: Mac) returns (result: int)
      ensures result == Lookup(Contents(), mac)
    {
      ghost var t := Contents();
      if |switchTable| != 0 && mac != BROADCAST_MAC {
        for i := 0 to |switchTable|
          invariant Contents() == t
          invariant Lookup(t, mac) == Lookup(t[i..], mac)
        {
          var addresses := switchTable[i].addressList;
          for j := 0 to |addresses|
            invariant mac !in addresses[..j]
          {
            if addresses[j] == mac {
              assert t[i..][0].macs[j] == mac;
              return switchTable[i].interfaceNumber;
            }
          }
          assert t[i..][1..] == t[i + 1..];
        }
      }
      return -1;
    }

    method AddTableEntry(sourceMac: Mac, ifId: nat)
      requires Valid()
      modifies this`switchTable, switchTable
      ensures Valid() && forall e :: e in switchTable ==> e in old(switchTable) || fresh(e)
      ensures Contents() == AddEntry(old(Contents()), sourceMac, ifId)
    {
      ghost var t := Contents();
      for i := 0 to |switchTable|
        invariant Contents() == t && switchTable == old(switchTable)
        invariant forall k :: 0 <= k < i ==> t[k].port != ifId
      {
        if switchTable[i].interfaceNumber == ifId {
          switchTable[i].addressList := switchTable[i].addressList + [sourceMac];
          AddEntryAtFirstRow(t, sourceMac, ifId, i);
          return;
        }
      }
      var newEntry := new TableEntry(ifId, sourceMac);
      switchTable := switchTable + [newEntry];
      AddEntryAtFirstRow(t, sourceMac, ifId, |t|);
    }

    method ProcessFrame(rxFrame: Frame, inIf: nat)
      requires Valid()
      modifies this`switchTable, switchTable, frameQueue`queue
      ensures Valid() && Contents() == Learn(old(Contents()), rxFrame.src, inIf)
      ensures frameQueue.queue == Offer(old(frameQueue.queue), Limit(frameQueue.maxEntries), rxFrame)
    {
      LearnSource(rxFrame.src, inIf);
      frameQueue.Add(rxFrame);
    }

    method LearnSource(sourceMac: Mac, inIf: nat)
      requires Valid()
      modifies this`switchTable, switchTable
      ensures Valid() && Contents() == Learn(old(Contents()), sourceMac, inIf)
    {
      var ifId := GetTableInterfaceNumber(sourceMac);
      if ifId == -1 {
        AddTableEntry(sourceMac, inIf);
      }
    }

    /** One turn of the sender loop: the front frame, as it is, goes out on each of its interfaces in order. */
    method SendNext() returns (ghost txFrame: Frame, sent: seq<(nat, Frame)>)
      requires Valid() && frameQueue.queue != []
      modifies frameQueue`queue
      ensures [txFrame] + frameQueue.queue == old(frameQueue.queue)
      ensures Valid() && Contents() == old(Contents())
      ensures SentOn(sent, OutPorts(Contents(), interfaces, txFrame), txFrame)
    {
      var frame := frameQueue.Remove();
      txFrame := frame;
      var ifId := GetTableInterfaceNumber(frame.dst);
      if ifId != -1 {
        sent := [(ifId, frame)];
      } else {
        sent := Broadcast(frame);
      }
    }

    method Broadcast(txFrame: Frame) returns (sent: seq<(nat, Frame)>)
      ensures SentOn(sent, FloodPorts(interfaces, Lookup(Contents(), txFrame.src)), txFrame)
    {
      sent := [];
      for i := 0 to interfaces
        invariant SentOn(sent, FloodPorts(i, Lookup(Contents(), txFrame.src)), txFrame)
      {
        var sourceIf := GetTableInterfaceNumber(txFrame.src);
        if sourceIf != i {
          sent := sent + [(i, txFrame)];
        }
      }
    }
  }

  /** What was transmitted: the frame itself, once on each of the interfaces, in their order. */
  ghost predicate SentOn(sent: seq<(nat, Frame)>, ports: seq<nat>, f: Frame) {
    |sent| == |ports| && forall k :: 0 <= k < |sent| ==> sent[k].0 == ports[k] && sent[k].1 == f
  }
}
