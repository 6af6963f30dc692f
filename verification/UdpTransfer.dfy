/** The UDP file transfer of l4_protocols.cpp and host.cpp: blocks of a file, the last one closed with an
    end mark, and a server that writes until it sees the mark. */
module UdpTransfer {
  import opened Bytes
  import opened Transport
  import opened Multiples
  import opened WorkQueueChain

  function Payloads(segs: seq<Udp>): seq<seq<byte>> {
    seq(|segs|, i requires 0 <= i < |segs| => segs[i].payload)
  }

  function Concat(blocks: seq<seq<byte>>): seq<byte> {
    if blocks == [] then [] else blocks[0] + Concat(blocks[1..])
  }

  /** The blocks a file is sent in. */
  function Blocks(file: seq<byte>, maximum: nat): (blocks: seq<seq<byte>>)
    requires maximum > 0
    ensures blocks != []
  {
    if |file| <= maximum then [file + [SEGMENT_EOF]] else [file[..maximum]] + Blocks(file[maximum..], maximum)
  }

  datatype Outcome = Outcome(written: seq<byte>, finished: bool)

  predicate IsLast(payload: seq<byte>) {
    payload != [] && payload[|payload| - 1] == SEGMENT_EOF
  }

  /** What the server makes of payloads in the order they come; unless finished, it waits for more. */
  function Received(payloads: seq<seq<byte>>): Outcome {
    if payloads == [] then Outcome([], false)
    else if IsLast(payloads[0]) then Outcome(payloads[0][..|payloads[0]| - 1], true)
    else After(payloads[0], Received(payloads[1..]))
  }

  lemma {:induction false} BlocksJoin(file: seq<byte>, maximum: nat)
    requires maximum > 0
    ensures Concat(Blocks(file, maximum)) == file + [0xFF]
  {
    if |file| <= maximum {
      assert Blocks(file, maximum)[1..] == [];
    } else {
      BlocksJoin(file[maximum..], maximum);
      assert Blocks(file, maximum)[1..] == Blocks(file[maximum..], maximum);
    }
  }

  /** Blocks before the last are full; the last holds the rest and the mark, so it may be one byte longer. */
  lemma {:induction false} BlocksAreFull(file: seq<byte>, maximum: nat, i: nat)
    requires maximum > 0 && file != [] && i < |Blocks(file, maximum)|
    ensures var block := Blocks(file, maximum)[i];
            if i < |Blocks(file, maximum)| - 1 then |block| == maximum else 2 <= |block| <= maximum + 1 && IsLast(block)
  {
    if |file| > maximum && i > 0 {
      BlocksAreFull(file[maximum..], maximum, i - 1);
    }
  }

  lemma PayloadsNext(segs: seq<Udp>, next: Udp)
    ensures Payloads(segs + [next]) == Payloads(segs) + [next.payload]
  {
  }

  /** Loading stops at the end of the file or of the block: what was loaded is the next block. */
  lemma NextBlock(file: seq<byte>, maximum: nat, start: nat, loaded: nat)
    requires start < loaded <= |file| && loaded <= start + maximum
    requires loaded == |file| || loaded == start + maximum
    ensures Blocks(file[start..], maximum)
            == if loaded == |file| then [file[start..loaded] + [SEGMENT_EOF]]
               else [file[start..loaded]] + Blocks(file[loaded..], maximum)
  {
    var rest := file[start..];
    if loaded == |file| {
      assert rest == file[start..loaded];
    } else {
      assert rest[..maximum] == file[start..loaded] && rest[maximum..] == file[loaded..];
    }
  }

  lemma BlockJoins(before: seq<seq<byte>>, block: seq<byte>, rest: seq<seq<byte>>)
    ensures before + ([block] + rest) == (before + [block]) + rest
  {
  }

  ghost predicate ForUdpPorts(segs: seq<Udp>, srcPort: u16, destPort: u16) {
    forall s :: s in segs ==> s.sourcePort == srcPort && s.destinationPort == destPort
  }

  /** `length` and `checksum` are what the segment object happened to hold; nothing sets them. */
  method FileToUdpSegments(file: seq<byte>, srcPort: u16, destPort: u16, maximumBytes: nat, length: u16, checksum: u16)
    returns (result: seq<Udp>)
    requires 0 < |file| < 0x8000_0000 && maximumBytes > 0
    ensures Payloads(result) == Blocks(file, maximumBytes)
    ensures ForUdpPorts(result, srcPort, destPort)
  {
    result := [];
    var bytesLoaded := 0;
    var payload: seq<byte> := [];
    ghost var start, blocks := 0, [];
    assert file[0..] == file;
    while true
      invariant start <= bytesLoaded < |file| && payload == file[start..bytesLoaded] && |payload| < maximumBytes
      invariant blocks == Payloads(result) && blocks + Blocks(file[start..], maximumBytes) == Blocks(file, maximumBytes)
      invariant ForUdpPorts(result, srcPort, destPort)
      decreases |file| - bytesLoaded
    {
      payload := payload + [file[bytesLoaded]];
      bytesLoaded := bytesLoaded + 1;
      assert payload == file[start..bytesLoaded];
      if bytesLoaded == |file| || |payload| == maximumBytes {
        NextBlock(file, maximumBytes, start, bytesLoaded);
        BlockJoins(blocks, payload, if bytesLoaded == |file| then [] else Blocks(file[bytesLoaded..], maximumBytes));
      }
      if bytesLoaded == |file| {
        payload := payload + [SEGMENT_EOF];
        PayloadsNext(result, Udp(srcPort, destPort, length, checksum, payload));
        result := result + [Udp(srcPort, destPort, length, checksum, payload)];
        break;
      } else if |payload| == maximumBytes {
        PayloadsNext(result, Udp(srcPort, destPort, length, checksum, payload));
        result := result + [Udp(srcPort, destPort, length, checksum, payload)];
        blocks := blocks + [payload];
        payload := [];
        start := bytesLoaded;
      }
    }
  }

  /** The server's loop over the segments that reach its socket; `finished` says that it left the loop. */
  method UdpServer(arrivals: seq<Udp>) returns (written: seq<byte>, finished: bool)
    requires forall s :: s in arrivals ==> s.payload != []
    ensures Outcome(written, finished) == Received(Payloads(arrivals))
  {
    written, finished := [], false;
    var next := 0;
    ghost var payloads := Payloads(arrivals);
    ghost var all, rest := Received(payloads), payloads;
    while !finished && next < |arrivals|
      invariant next <= |arrivals|
      invariant !finished ==> rest == payloads[next..]
      invariant all == if finished then Outcome(written, true) else After(written, Received(rest))
      decreases |arrivals| - next, !finished
    {
      var payload := arrivals[next].payload;
      assert rest[0] == payload && rest[1..] == payloads[next + 1..];
      NextReceived(written, rest);
      rest := rest[1..];
      next := next + 1;
      if payload[|payload| - 1] == SEGMENT_EOF {
        finished := true;
        payload := payload[..|payload| - 1];
      }
      written := Put(written, payload);
    }
  }

  lemma AfterAfter(a: seq<byte>, b: seq<byte>, rest: Outcome)
    ensures After(a, After(b, rest)) == After(a + b, rest)
  {
    assert a + (b + rest.written) == (a + b) + rest.written;
  }

  lemma NextReceived(written: seq<byte>, rest: seq<seq<byte>>)
    requires rest != []
    ensures After(written, Received(rest))
            == if IsLast(rest[0]) then Outcome(written + rest[0][..|rest[0]| - 1], true)
               else After(written + rest[0], Received(rest[1..]))
  {
    AfterAfter(written, rest[0], Received(rest[1..]));
  }

  function After(before: seq<byte>, rest: Outcome): Outcome {
    Outcome(before + rest.written, rest.finished)
  }

  method Put(file: seq<byte>, payload: seq<byte>) returns (written: seq<byte>)
    ensures written == file + payload
  {
    written := file;
    for i := 0 to |payload|
      invariant written == file + payload[..i]
    {
      written := written + [payload[i]];
    }
  }

  // What arrives on a lossless path in order

  /** Full block `k`, counted from 1, is not the last and ends in the mark's byte. */
  predicate LooksLast(file: seq<byte>, maximum: nat, k: nat) {
    0 < Multiple(k, maximum) < |file| && file[Multiple(k, maximum) - 1] == 0xFF
  }

  lemma LooksLastInRest(file: seq<byte>, maximum: nat, k: nat)
    requires 0 < maximum < |file| && k > 0
    ensures LooksLast(file[maximum..], maximum, k) <==> LooksLast(file, maximum, k + 1)
  {
    MultipleOfMore(k, maximum);
    MultipleOfMore(k - 1, maximum);
  }

  /** What the server makes of the first of several blocks. */
  lemma FirstBlockReceived(file: seq<byte>, maximum: nat)
    requires 0 < maximum < |file|
    ensures Received(Blocks(file, maximum))
            == if LooksLast(file, maximum, 1) then Outcome(file[..maximum - 1], true)
               else After(file[..maximum], Received(Blocks(file[maximum..], maximum)))
  {
    var blocks := Blocks(file, maximum);
    assert blocks[0] == file[..maximum] && blocks[1..] == Blocks(file[maximum..], maximum);
    assert Multiple(1, maximum) == maximum;
  }

  ghost predicate NoneLooksLastBefore(file: seq<byte>, maximum: nat, k: nat) {
    forall j :: 0 < j < k ==> !LooksLast(file, maximum, j)
  }

  lemma NoneInRestBefore(file: seq<byte>, maximum: nat, k: nat)
    requires 0 < maximum < |file| && k > 0 && NoneLooksLastBefore(file, maximum, k)
    ensures NoneLooksLastBefore(file[maximum..], maximum, k - 1)
  {
    forall j | 0 < j < k - 1
      ensures !LooksLast(file[maximum..], maximum, j)
    {
      LooksLastInRest(file, maximum, j);
    }
  }

  /** The first block that looks like the last one ends the file, and its last byte is taken for the mark. */
  lemma {:induction false} StopsAtFirst(file: seq<byte>, maximum: nat, k: nat)
    requires maximum > 0 && LooksLast(file, maximum, k) && NoneLooksLastBefore(file, maximum, k)
    ensures Received(Blocks(file, maximum)) == Outcome(file[..Multiple(k, maximum) - 1], true)
    decreases |file|
  {
    MultipleIncreases(1, k, maximum);
    assert Multiple(1, maximum) == maximum;
    FirstBlockReceived(file, maximum);
    if k > 1 {
      var rest := file[maximum..];
      MultipleOfMore(k - 1, maximum);
      LooksLastInRest(file, maximum, k - 1);
      NoneInRestBefore(file, maximum, k);
      StopsAtFirst(rest, maximum, k - 1);
      assert file[..maximum] + rest[..Multiple(k - 1, maximum) - 1] == file[..Multiple(k, maximum) - 1];
    }
  }

  ghost predicate NoneLooksLast(file: seq<byte>, maximum: nat) {
    forall k: nat :: !LooksLast(file, maximum, k)
  }

  lemma {:induction false} WholeFileArrives(file: seq<byte>, maximum: nat)
    requires maximum > 0 && NoneLooksLast(file, maximum)
    ensures Received(Blocks(file, maximum)) == Outcome(file, true)
    decreases |file|
  {
    if |file| > maximum {
      FirstBlockReceived(file, maximum);
      forall k: nat
        ensures !LooksLast(file[maximum..], maximum, k)
      {
        if k > 0 {
          LooksLastInRest(file, maximum, k);
        }
      }
      WholeFileArrives(file[maximum..], maximum);
    }
  }

  lemma {:induction false} FirstThatLooksLast(file: seq<byte>, maximum: nat, k: nat) returns (first: nat)
    requires LooksLast(file, maximum, k)
    ensures LooksLast(file, maximum, first) && NoneLooksLastBefore(file, maximum, first)
  {
    if j :| 0 < j < k && LooksLast(file, maximum, j) {
      first := FirstThatLooksLast(file, maximum, j);
    } else {
      first := k;
    }
  }

  /** The server always finishes, and it writes the whole file exactly when no full block before the last
      ends in 0xFF. */
  lemma UdpTransferIsExactIff(file: seq<byte>, maximum: nat)
    requires maximum > 0
    ensures Received(Blocks(file, maximum)).finished
    ensures Received(Blocks(file, maximum)).written == file <==> NoneLooksLast(file, maximum)
  {
    if NoneLooksLast(file, maximum) {
      WholeFileArrives(file, maximum);
    } else {
      var k: nat :| LooksLast(file, maximum, k);
      var first := FirstThatLooksLast(file, maximum, k);
      StopsAtFirst(file, maximum, first);
    }
  }

  // What arrives on a path that loses blocks but keeps their order

  lemma {:induction false} ConcatNext(blocks: seq<seq<byte>>, block: seq<byte>)
    ensures Concat(blocks + [block]) == Concat(blocks) + block
  {
    if blocks == [] {
      assert [block][1..] == [];
    } else {
      assert (blocks + [block])[1..] == blocks[1..] + [block];
      ConcatNext(blocks[1..], block);
    }
  }

  lemma {:induction false} SubsequenceThenSame(a: seq<byte>, b: seq<byte>, x: seq<byte>)
    requires IsSubsequence(a, b)
    ensures IsSubsequence(a, b + x) && IsSubsequence(a + x, b + x)
  {
    if x == [] {
      assert a + x == a && b + x == b;
    } else {
      var front, last := x[..|x| - 1], x[|x| - 1];
      SubsequenceThenSame(a, b, front);
      SubsequenceOfLonger(a, b + front, last);
      SubsequenceOfLonger(a + front, b + front, last);
      assert a + front + [last] == a + x && b + front + [last] == b + x;
    }
  }

  lemma {:induction false} ConcatKeepsSubsequence(arrivals: seq<seq<byte>>, blocks: seq<seq<byte>>)
    requires IsSubsequence(arrivals, blocks)
    ensures IsSubsequence(Concat(arrivals), Concat(blocks))
    decreases |blocks|
  {
    if arrivals != [] {
      var front, last := blocks[..|blocks| - 1], blocks[|blocks| - 1];
      assert blocks == front + [last];
      ConcatNext(front, last);
      if IsSubsequence(arrivals, front) {
        ConcatKeepsSubsequence(arrivals, front);
        SubsequenceThenSame(Concat(arrivals), Concat(front), last);
      } else {
        var most := arrivals[..|arrivals| - 1];
        assert arrivals == most + [last];
        ConcatNext(most, last);
        ConcatKeepsSubsequence(most, front);
        SubsequenceThenSame(Concat(most), Concat(front), last);
      }
    }
  }

  /** The server writes what arrives, up to the first mark. Without one, what it wrote does not end in 0xFF. */
  lemma {:induction false} WrittenOfArrivals(arrivals: seq<seq<byte>>)
    ensures var o := Received(arrivals);
            if o.finished then o.written + [0xFF] <= Concat(arrivals)
            else o.written == Concat(arrivals) && !IsLast(o.written)
  {
    if arrivals != [] && !IsLast(arrivals[0]) {
      WrittenOfArrivals(arrivals[1..]);
    }
  }

  /** Whatever a path that keeps order loses, what is written is the file with bytes left out. */
  lemma UdpWritesSubsequence(file: seq<byte>, maximum: nat, arrivals: seq<seq<byte>>)
    requires maximum > 0 && IsSubsequence(arrivals, Blocks(file, maximum))
    ensures IsSubsequence(Received(arrivals).written, file)
  {
    var o := Received(arrivals);
    ConcatKeepsSubsequence(arrivals, Blocks(file, maximum));
    BlocksJoin(file, maximum);
    WrittenOfArrivals(arrivals);
    var marked := file + [SEGMENT_EOF];
    assert marked[..|marked| - 1] == file;
    if o.finished {
      var all, w := Concat(arrivals), o.written + [SEGMENT_EOF];
      assert w + all[|w|..] == all;
      PrefixOfSubsequence(w, all[|w|..], marked);
      assert w[..|w| - 1] == o.written;
      if IsSubsequence(w, file) {
        PrefixOfSubsequence(o.written, [SEGMENT_EOF], file);
      }
    }
  }
}
