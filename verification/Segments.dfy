/** The transport units and their flags, as l4_protocols.h declares them. */
module Transport {
  import opened Bytes

  datatype Tcp = Tcp(
    sourcePort: u16,
    destinationPort: u16,
    sequenceNumber: u32,
    ackNumber: u32,
    details: u16,
    receiveWindow: u16,
    checksum: u16,
    payload: seq<byte>)

  datatype Udp = Udp(sourcePort: u16, destinationPort: u16, length: u16, checksum: u16, payload: seq<byte>)

  const TCP_FIN: u16 := 0x0001
  const TCP_ACK: u16 := 0x0010
  const SEGMENT_EOF: byte := 0xFF

  /** `details & TCP_FIN`, as a condition. */
  predicate HasFin(details: u16) {
    details % 2 == 1
  }

  /** `details & TCP_ACK`, as a condition. */
  predicate HasAck(details: u16) {
    details / 16 % 2 == 1
  }

  /** `details | TCP_FIN`. */
  function WithFin(details: u16): u16 {
    if HasFin(details) then details else details + TCP_FIN
  }

  /** `details | TCP_ACK`. */
  function WithAck(details: u16): u16 {
    if HasAck(details) then details else details + TCP_ACK
  }

  /** `HasFin` and `HasAck` are the bit tests they stand for. */
  lemma FlagsAreBits(details: u16)
    ensures HasFin(details) <==> (details as bv16) & 0x0001 != 0
    ensures HasAck(details) <==> (details as bv16) & 0x0010 != 0
  {
  }

  lemma DetailsOfBits(bits: bv16)
    ensures (bits as u16) as bv16 == bits
  {
  }

  lemma OddAfterEven(h: bv16)
    requires h < 0x8000
    ensures ((h << 1) | 1) as int == (h << 1) as int + 1
  {
  }

  lemma Half(bits: bv16) returns (h: bv16)
    requires bits & 0x0001 == 0
    ensures h < 0x8000 && bits == h << 1
  {
    h := bits >> 1;
  }

  lemma SetFin(bits: bv16)
    requires bits & 0x0001 == 0
    ensures (bits | 0x0001) as int == bits as int + 0x0001
  {
    var h := Half(bits);
    OddAfterEven(h);
  }

  lemma SetAck(bits: bv16)
    requires bits & 0x0010 == 0
    ensures (bits | 0x0010) as int == bits as int + 0x0010
  {
  }

  /** `WithFin` is `details | TCP_FIN`, for any sixteen bits. */
  lemma WithFinIsOr(bits: bv16)
    ensures WithFin(bits as u16) == (bits | 0x0001) as int
  {
    DetailsOfBits(bits);
    FlagsAreBits(bits as u16);
    if bits & 0x0001 == 0 {
      SetFin(bits);
    } else {
      assert bits | 0x0001 == bits;
    }
  }

  /** `WithAck` is `details | TCP_ACK`. */
  lemma WithAckIsOr(bits: bv16)
    ensures WithAck(bits as u16) == (bits | 0x0010) as int
  {
    DetailsOfBits(bits);
    FlagsAreBits(bits as u16);
    if bits & 0x0010 == 0 {
      SetAck(bits);
    } else {
      assert bits | 0x0010 == bits;
    }
  }
}

/** Cutting a file into the segments a TCP client keeps until they are acknowledged. */
module TcpSegments {
  import opened Bytes
  import opened Multiples
  import opened Transport

  /** The bytes the first `k` segments carry, in order. */
  function Carried(segs: seq<Tcp>, k: nat): seq<byte>
    requires k <= |segs|
  {
    if k == 0 then [] else Carried(segs, k - 1) + segs[k - 1].payload
  }

  function Offset(segs: seq<Tcp>, k: nat): nat
    requires k <= |segs|
  {
    |Carried(segs, k)|
  }

  /** Segment `i` carries something, is numbered from 1 by the bytes before it, and has the flag ACK, with FIN
      if it is the last and no other flag. */
  ghost predicate SegmentOk(segs: seq<Tcp>, i: nat)
    requires i < |segs|
  {
    && segs[i].payload != []
    && segs[i].sequenceNumber == 1 + Offset(segs, i)
    && segs[i].ackNumber == 1
    && segs[i].details == if i == |segs| - 1 then 0x0011 else 0x0010
  }

  ghost predicate SegmentsOf(segs: seq<Tcp>, file: seq<byte>) {
    && |segs| > 0 && Carried(segs, |segs|) == file && |file| < 0x8000_0000
    && forall i :: 0 <= i < |segs| ==> SegmentOk(segs, i)
  }

  /** As long as they can be: all but the last carry `maximum` bytes, and the last at most that. */
  ghost predicate FullSegments(segs: seq<Tcp>, maximum: nat) {
    forall i :: 0 <= i < |segs| ==> HasLength(segs[i], if i < |segs| - 1 then maximum else 1, maximum)
  }

  ghost predicate HasLength(seg: Tcp, least: nat, most: nat) {
    least <= |seg.payload| <= most
  }

  lemma CoveringIsOffset(segs: seq<Tcp>, file: seq<byte>, i: nat)
    requires SegmentsOf(segs, file) && i < |segs|
    ensures segs[i].sequenceNumber + |segs[i].payload| == 1 + Offset(segs, i + 1)
    ensures Offset(segs, i + 1) <= |file|
  {
    assert SegmentOk(segs, i);
    CarriedIsPrefix(segs, i + 1, |segs|);
  }

  lemma {:induction false} CarriedIsPrefix(segs: seq<Tcp>, j: nat, k: nat)
    requires j <= k <= |segs|
    ensures Carried(segs, j) <= Carried(segs, k)
  {
    if j < k {
      CarriedIsPrefix(segs, j, k - 1);
    }
  }

  ghost predicate NoneEmpty(segs: seq<Tcp>) {
    forall i :: 0 <= i < |segs| ==> segs[i].payload != []
  }

  lemma {:induction false} OffsetsIncrease(segs: seq<Tcp>, j: nat, k: nat)
    requires j <= k <= |segs| && NoneEmpty(segs)
    ensures Offset(segs, j) <= Offset(segs, k) && (j < k ==> Offset(segs, j) < Offset(segs, k))
  {
    if j < k {
      OffsetsIncrease(segs, j, k - 1);
    }
  }

  lemma SegmentsAreNotEmpty(segs: seq<Tcp>, file: seq<byte>)
    requires SegmentsOf(segs, file)
    ensures NoneEmpty(segs)
  {
    forall i | 0 <= i < |segs|
      ensures segs[i].payload != []
    {
      assert SegmentOk(segs, i);
    }
  }

  /** Segment boundaries are told apart by their offsets. */
  lemma OffsetsOrdered(segs: seq<Tcp>, j: nat, k: nat)
    requires j <= |segs| && k <= |segs| && NoneEmpty(segs)
    ensures Offset(segs, j) < Offset(segs, k) <==> j < k
    ensures Offset(segs, j) == Offset(segs, k) <==> j == k
  {
    if j <= k {
      OffsetsIncrease(segs, j, k);
    } else {
      OffsetsIncrease(segs, k, j);
    }
  }

  /** `count` is `n / maximum`, rounded up. */
  ghost predicate PiecesNeeded(n: nat, maximum: nat, count: nat) {
    count > 0 && Multiple(count - 1, maximum) < n <= Multiple(count, maximum)
  }

  /** Piece `i` of the file. */
  function Piece(file: seq<byte>, maximum: nat, i: nat): seq<byte> {
    file[Min(Multiple(i, maximum), |file|)..Min(Multiple(i + 1, maximum), |file|)]
  }

  /** Segment `i` is piece `i` of the file. */
  ghost predicate IsPiece(seg: Tcp, file: seq<byte>, maximum: nat, i: nat, last: bool) {
    && seg.payload == Piece(file, maximum, i)
    && seg.sequenceNumber == 1 + Multiple(i, maximum)
    && seg.ackNumber == 1
    && seg.details == if last then WithFin(TCP_ACK) else TCP_ACK
  }

  /** The segments are pieces of the file, in order from the start; the last has FIN if `done`. */
  ghost predicate Cut(segs: seq<Tcp>, file: seq<byte>, maximum: nat, done: bool) {
    forall i :: 0 <= i < |segs| ==> IsPiece(segs[i], file, maximum, i, done && i == |segs| - 1)
  }

  lemma {:induction false} PiecesJoin(segs: seq<Tcp>, file: seq<byte>, maximum: nat, k: nat)
    requires Cut(segs, file, maximum, true) && k <= |segs|
    ensures Carried(segs, k) == file[..Min(Multiple(k, maximum), |file|)]
  {
    if k > 0 {
      PiecesJoin(segs, file, maximum, k - 1);
      assert IsPiece(segs[k - 1], file, maximum, k - 1, k == |segs|);
      MultipleIncreases(k - 1, k, maximum);
      TakeMore(file, Min(Multiple(k - 1, maximum), |file|), Min(Multiple(k, maximum), |file|));
    }
  }

  lemma TakeMore(file: seq<byte>, a: nat, b: nat)
    requires a <= b <= |file|
    ensures file[..a] + file[a..b] == file[..b]
  {
  }

  /** All the pieces there are make the segments of the file. */
  lemma CutIsSegments(segs: seq<Tcp>, file: seq<byte>, maximum: nat)
    requires Cut(segs, file, maximum, true) && PiecesNeeded(|file|, maximum, |segs|) && |file| < 0x8000_0000
    ensures SegmentsOf(segs, file) && FullSegments(segs, maximum)
  {
    PiecesJoin(segs, file, maximum, |segs|);
    assert file[..|file|] == file;
    forall i | 0 <= i < |segs|
      ensures SegmentOk(segs, i) && HasLength(segs[i], if i < |segs| - 1 then maximum else 1, maximum)
    {
      PieceIsSegment(segs, file, maximum, i);
    }
  }

  lemma PieceIsSegment(segs: seq<Tcp>, file: seq<byte>, maximum: nat, i: nat)
    requires Cut(segs, file, maximum, true) && PiecesNeeded(|file|, maximum, |segs|) && i < |segs|
    ensures SegmentOk(segs, i) && HasLength(segs[i], if i < |segs| - 1 then maximum else 1, maximum)
  {
    PiecesJoin(segs, file, maximum, i);
    assert IsPiece(segs[i], file, maximum, i, i == |segs| - 1);
    MultipleIncreases(i, |segs| - 1, maximum);
    if i < |segs| - 1 {
      MultipleIncreases(i + 1, |segs| - 1, maximum);
    }
  }

  /** Loading stops at the end of the file or of the segment: what was loaded is the next piece. */
  lemma LoadedPiece(file: seq<byte>, maximum: nat, i: nat, loaded: nat)
    requires Multiple(i, maximum) < loaded <= |file| && loaded <= Multiple(i, maximum) + maximum
    requires loaded == |file| || loaded == Multiple(i, maximum) + maximum
    ensures Piece(file, maximum, i) == file[Multiple(i, maximum)..loaded]
    ensures loaded == |file| ==> PiecesNeeded(|file|, maximum, i + 1)
    ensures loaded < |file| ==> Multiple(i + 1, maximum) == loaded
  {
  }

  lemma CutExtends(segs: seq<Tcp>, file: seq<byte>, maximum: nat, next: Tcp, done: bool)
    requires Cut(segs, file, maximum, false)
    requires next.payload == Piece(file, maximum, |segs|) && next.sequenceNumber == 1 + Multiple(|segs|, maximum)
    requires next.ackNumber == 1 && next.details == if done then WithFin(TCP_ACK) else TCP_ACK
    ensures Cut(segs + [next], file, maximum, done)
  {
  }

  /** What the code reads off the last segment: one more than the bytes in all of them. */
  lemma NextSequenceNumber(segs: seq<Tcp>, file: seq<byte>, maximum: nat)
    requires Cut(segs, file, maximum, false) && |segs| > 0 && Multiple(|segs|, maximum) <= |file|
    ensures segs[|segs| - 1].sequenceNumber + |segs[|segs| - 1].payload| == 1 + Multiple(|segs|, maximum)
  {
    assert IsPiece(segs[|segs| - 1], file, maximum, |segs| - 1, false);
  }

  ghost predicate ForPorts(segs: seq<Tcp>, srcPort: u16, destPort: u16) {
    forall s :: s in segs ==> s.sourcePort == srcPort && s.destinationPort == destPort
  }

  /** Where the outer loop stands: `loaded` bytes are in the segments, all of them once FIN is set. */
  ghost predicate Loaded(segs: seq<Tcp>, file: seq<byte>, maximum: nat, loaded: nat,
                         details: u16, srcPort: u16, destPort: u16) {
    && Cut(segs, file, maximum, HasFin(details)) && ForPorts(segs, srcPort, destPort)
    && if HasFin(details) then PiecesNeeded(|file|, maximum, |segs|)
       else details == TCP_ACK && loaded == Multiple(|segs|, maximum) < |file|
  }

  lemma LoadedExtends(segs: seq<Tcp>, file: seq<byte>, maximum: nat, start: nat, loaded: nat, next: Tcp)
    requires Loaded(segs, file, maximum, start, TCP_ACK, next.sourcePort, next.destinationPort)
    requires start < loaded <= |file| && loaded <= start + maximum && next.payload == file[start..loaded]
    requires loaded < |file| ==> loaded == start + maximum
    requires next.sequenceNumber == 1 + start && next.ackNumber == 1
    requires next.details == if loaded == |file| then WithFin(TCP_ACK) else TCP_ACK
    ensures Loaded(segs + [next], file, maximum, loaded, next.details, next.sourcePort, next.destinationPort)
  {
    LoadedPiece(file, maximum, |segs|, loaded);
    CutExtends(segs, file, maximum, next, loaded == |file|);
  }

  /** `receiveWindow` and `checksum` are what the segment object happened to hold; nothing sets them. */
  method FileToTcpSegments(file: seq<byte>, srcPort: u16, destPort: u16, maximumBytes: nat,
                           receiveWindow: u16, checksum: u16)
    returns (result: seq<Tcp>)
    requires 0 < |file| < 0x8000_0000 && maximumBytes > 0
    ensures SegmentsOf(result, file) && FullSegments(result, maximumBytes)
    ensures PiecesNeeded(|file|, maximumBytes, |result|)
    ensures ForPorts(result, srcPort, destPort)
  {
    result := [];
    var bytesLoaded, sequenceNumber, details := 0, 1, TCP_ACK;

    while !HasFin(details)
      invariant Loaded(result, file, maximumBytes, bytesLoaded, details, srcPort, destPort)
      invariant 0 <= bytesLoaded <= |file|
      invariant result == [] ==> sequenceNumber == 1
      decreases |file| - bytesLoaded
    {
      var payload: seq<byte> := [];
      ghost var start := bytesLoaded;

      while true
        invariant start <= bytesLoaded < |file| && payload == file[start..bytesLoaded]
        invariant |payload| < maximumBytes
        decreases |file| - bytesLoaded
      {
        payload := payload + [file[bytesLoaded]];
        bytesLoaded := bytesLoaded + 1;
        if bytesLoaded == |file| {
          details := WithFin(details);
          break;
        } else if |payload| == maximumBytes {
          break;
        }
      }

      if |result| > 0 {
        var back := result[|result| - 1];
        NextSequenceNumber(result, file, maximumBytes);
        sequenceNumber := (back.sequenceNumber + |back.payload|) % 0x1_0000_0000;
      }
      var txSegment := Tcp(srcPort, destPort, sequenceNumber, 1, details, receiveWindow, checksum, payload);
      LoadedExtends(result, file, maximumBytes, start, bytesLoaded, txSegment);
      result := result + [txSegment];
    }
    CutIsSegments(result, file, maximumBytes);
  }
}
