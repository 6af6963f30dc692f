/** Working a message into a state block by block, whatever the state and the work on a block are. */
module BlockStream {
  import opened Bytes

  /** The state after working in the whole 64-byte blocks at the front of `m`. */
  function Absorb<S>(work: (S, seq<byte>) -> S, state: S, m: seq<byte>): S {
    if |m| < 64 then state else Absorb(work, work(state, m[..64]), m[64..])
  }

  /** The bytes after the last whole block. */
  function Tail(m: seq<byte>): (tail: seq<byte>)
    ensures |tail| < 64
  {
    if |m| < 64 then m else Tail(m[64..])
  }

  lemma {:induction false} TailLength(m: seq<byte>)
    ensures |Tail(m)| == |m| % 64
  {
    if |m| >= 64 {
      TailLength(m[64..]);
    }
  }

  /** More bytes after a message meet its tail first. */
  lemma {:induction false} AbsorbMore<S>(work: (S, seq<byte>) -> S, state: S, m: seq<byte>, more: seq<byte>)
    ensures Absorb(work, state, m + more) == Absorb(work, Absorb(work, state, m), Tail(m) + more)
    decreases |m|
  {
    if |m| >= 64 {
      assert (m + more)[..64] == m[..64];
      assert (m + more)[64..] == m[64..] + more;
      AbsorbMore(work, work(state, m[..64]), m[64..], more);
    }
  }

  lemma {:induction false} TailOfMore(m: seq<byte>, more: seq<byte>)
    ensures Tail(m + more) == Tail(Tail(m) + more)
    decreases |m|
  {
    if |m| >= 64 {
      assert (m + more)[64..] == m[64..] + more;
      TailOfMore(m[64..], more);
    }
  }

  lemma AbsorbBlock<S>(work: (S, seq<byte>) -> S, state: S, block: seq<byte>)
    requires |block| == 64
    ensures Absorb(work, state, block) == work(state, block)
  {
    assert block[..64] == block;
  }

  /** One more block, when what came before it leaves no tail. */
  lemma AbsorbNextBlock<S>(work: (S, seq<byte>) -> S, state: S, before: seq<byte>, block: seq<byte>)
    requires Tail(before) == [] && |block| == 64
    ensures Absorb(work, state, before + block) == work(Absorb(work, state, before), block)
    ensures Tail(before + block) == []
  {
    AbsorbMore(work, state, before, block);
    AbsorbBlock(work, Absorb(work, state, before), block);
    TailOfMore(before, block);
    assert [] + block == block;
  }

  /** Less than a block more changes nothing but the tail. */
  lemma AbsorbRest<S>(work: (S, seq<byte>) -> S, state: S, before: seq<byte>, rest: seq<byte>)
    requires Tail(before) == [] && |rest| < 64
    ensures Absorb(work, state, before + rest) == Absorb(work, state, before)
  {
    AbsorbMore(work, state, before, rest);
  }

  lemma TailIsRest(before: seq<byte>, rest: seq<byte>)
    requires Tail(before) == [] && |rest| < 64
    ensures Tail(before + rest) == rest
  {
    TailOfMore(before, rest);
    assert [] + rest == rest;
  }
}

/** The message digest of RFC 1321 as a function of the whole message. */
module Md5Spec {
  import opened Bytes
  import opened Md5Rounds
  import opened BlockStream

  const INITIAL_STATE := Registers(0x67452301, 0xefcdab89, 0x98badcfe, 0x10325476)

  /** Four bytes as a word, least significant first. */
  function Word(b0: byte, b1: byte, b2: byte, b3: byte): u32 {
    b0 as int + 0x100 * b1 as int + 0x1_0000 * b2 as int + 0x100_0000 * b3 as int
  }

  lemma OrByte8(low: bv32, b: bv32) returns (x: bv32)
    requires low < 0x100 && b < 0x100
    ensures x == low | (b << 8) && x as int == low as int + 0x100 * b as int && x < 0x1_0000
  {
    x := low | (b << 8);
  }

  lemma OrByte16(low: bv32, b: bv32) returns (x: bv32)
    requires low < 0x1_0000 && b < 0x100
    ensures x == low | (b << 16) && x as int == low as int + 0x1_0000 * b as int && x < 0x100_0000
  {
    x := low | (b << 16);
  }

  lemma OrByte24(low: bv32, b: bv32) returns (x: bv32)
    requires low < 0x100_0000 && b < 0x100
    ensures x == low | (b << 24) && x as int == low as int + 0x100_0000 * b as int
  {
    x := low | (b << 24);
  }

  /** The source shifts the bytes and ors them together. `Word` is that number, since they do not overlap. */
  lemma WordIsOr(b0: bv32, b1: bv32, b2: bv32, b3: bv32) returns (x: bv32)
    requires b0 < 0x100 && b1 < 0x100 && b2 < 0x100 && b3 < 0x100
    ensures x == b0 | (b1 << 8) | (b2 << 16) | (b3 << 24)
    ensures x as int == Word(b0 as byte, b1 as byte, b2 as byte, b3 as byte)
  {
    var x1 := OrByte8(b0, b1);
    var x2 := OrByte16(x1, b2);
    x := OrByte24(x2, b3);
  }

  /** The first `n` words. */
  function DecodeWords(bytes: seq<byte>, n: nat): (words: seq<u32>)
    requires 4 * n <= |bytes|
    ensures |words| == n
  {
    if n == 0 then []
    else DecodeWords(bytes, n - 1) + [Word(bytes[4 * n - 4], bytes[4 * n - 3], bytes[4 * n - 2], bytes[4 * n - 1])]
  }

  /** The sixteen words of a block. */
  function WordsOf(block: seq<byte>): (words: seq<u32>)
    requires |block| == 64
    ensures |words| == 16
  {
    DecodeWords(block, |block| / 4)
  }

  /** Section 3.4: the words of a block are worked into the state. */
  function WorkIn(o: Operations<bv32>): (Registers, seq<byte>) -> Registers {
    (state: Registers, block: seq<byte>) =>
      if |block| == 64 then Compress(o, state, WordsOf(block)) else state
  }

  /** Section 3.1: a single one bit, then zero bits up to 64 short of a block. */
  function Padding(n: nat): seq<byte> {
    [0x80] + seq((55 - n) % 64, i => 0)
  }

  /** Sections 3.1 and 3.2: padding, then the bit count before padding, low-order byte first. */
  function Padded(m: seq<byte>): seq<byte> {
    m + Padding(|m|) + LittleEndian(8 * |m| % 0x1_0000_0000_0000_0000, 8)
  }

  /** Section 3.5: the four registers, low-order byte first. */
  function EncodeState(r: Registers): seq<byte> {
    LittleEndian(r.a, 4) + LittleEndian(r.b, 4) + LittleEndian(r.c, 4) + LittleEndian(r.d, 4)
  }

  /** What comes of a message when work starts from `state`. */
  function DigestFrom(work: (Registers, seq<byte>) -> Registers, state: Registers, m: seq<byte>): seq<byte> {
    EncodeState(Absorb(work, state, Padded(m)))
  }

  /** The message digest. */
  function Digest(m: seq<byte>): seq<byte> {
    DigestFrom(WorkIn(MD5_OPERATIONS), INITIAL_STATE, m)
  }

  /** The padding is the shortest that leaves eight bytes to the block boundary. */
  lemma PaddingIsShortest(n: nat, k: nat)
    ensures 1 <= |Padding(n)| <= 64 && (n + |Padding(n)|) % 64 == 56
    ensures k >= 1 && (n + k) % 64 == 56 ==> |Padding(n)| <= k
  {
  }

  /** `index < 56 ? 56 - index : 120 - index` */
  lemma PaddingLength(n: nat)
    ensures |Padding(n)| == if n % 64 < 56 then 56 - n % 64 else 120 - n % 64
  {
    var index, blocks := n % 64, n / 64;
    SumRemainder(if index < 56 then 55 - index else 119 - index, if index < 56 then blocks else blocks + 1, 55 - n);
  }

  lemma SumRemainder(r: nat, q: int, x: int)
    requires r < 64 && x == r - 64 * q
    ensures x % 64 == r
  {
  }

  /** What a padded message holds: the message, one byte with the top bit, zero bytes, and in the last eight the
      number of bits, least significant first and modulo 2 to the 64. */
  lemma PaddedLayout(m: seq<byte>)
    ensures var p := Padded(m);
            && |p| >= |m| + 9 && p[..|m|] == m && p[|m|] == 0x80
            && (forall i :: |m| < i < |p| - 8 ==> p[i] == 0)
            && FromLittleEndian(p[|p| - 8..]) == 8 * |m| % 0x1_0000_0000_0000_0000
  {
    var bits := 8 * |m| % 0x1_0000_0000_0000_0000;
    assert Padded(m)[|Padded(m)| - 8..] == LittleEndian(bits, 8);
    assert Pow256(4) == 0x1_0000_0000;
    assert Pow256(8) == 0x1_0000_0000_0000_0000;
    LittleEndianRoundTrip(bits, 8);
  }

  /** Message, padding and length fill whole blocks. */
  lemma PaddedFillsBlocks(m: seq<byte>)
    ensures Tail(Padded(m)) == []
  {
    PaddingIsShortest(|m|, 1);
    EightMore(|m| + |Padding(|m|)|);
    TailLength(Padded(m));
  }

  lemma EightMore(n: nat)
    requires n % 64 == 56
    ensures (n + 8) % 64 == 0
  {
  }
}

/** The two count words as a 64-bit number. */
module Md5Count {
  import opened Bytes
  import opened Md5Rounds

  /** The words hold eight times `n`, modulo 2 to the 64. */
  ghost predicate Counts(low: u32, high: u32, n: nat) {
    low + TWO_TO_THE_32 * high == 8 * n % 0x1_0000_0000_0000_0000
  }

  /** Adding `8 * length` to the low word, with the carry test and `length >> 29` for the high word. */
  function LowAfter(low: u32, length: u32): u32 {
    Add(low, length * 8 % 0x1_0000_0000)
  }

  function HighAfter(low: u32, high: u32, length: u32): u32 {
    var carry := if LowAfter(low, length) < length * 8 % 0x1_0000_0000 then 1 else 0;
    Add(Add(high, carry), length / 0x2000_0000)
  }

  lemma RemainderIs(x: nat, q: nat, r: nat)
    requires x == q * TWO_TO_THE_64 + r && r < TWO_TO_THE_64
    ensures x % 0x1_0000_0000_0000_0000 == r
  {
  }

  /** The test `(count[0] += x) < x` is the carry out of the low word. */
  lemma CarryTest(low: u32, x: u32)
    ensures low + x == (low + x) % 0x1_0000_0000 + (if (low + x) % 0x1_0000_0000 < x then TWO_TO_THE_32 else 0)
  {
  }

  lemma ShiftSplits(length: u32)
    ensures length * 8 == TWO_TO_THE_32 * (length / 0x2000_0000) + length * 8 % 0x1_0000_0000
  {
  }

  lemma AddTwice(high: u32, carry: nat, top: nat) returns (wrap: nat)
    requires carry <= 1 && top < 8
    ensures high + carry + top == ((high + carry) % 0x1_0000_0000 + top) % 0x1_0000_0000 + TWO_TO_THE_32 * wrap
  {
    wrap := (high + carry + top) / 0x1_0000_0000;
  }

  /** The two words grow by `8 * length`, up to a wrap of the high word. */
  lemma WordsAdvance(low: u32, high: u32, length: u32) returns (wrap: nat)
    ensures LowAfter(low, length) + TWO_TO_THE_32 * HighAfter(low, high, length) + TWO_TO_THE_64 * wrap
            == low + TWO_TO_THE_32 * high + 8 * length
  {
    var shifted, top := length * 8 % 0x1_0000_0000, length / 0x2000_0000;
    ShiftSplits(length);
    CarryTest(low, shifted);
    wrap := AddTwice(high, if LowAfter(low, length) < shifted then 1 else 0, top);
  }

  lemma CountAdvances(low: u32, high: u32, n: nat, length: u32)
    requires Counts(low, high, n)
    ensures Counts(LowAfter(low, length), HighAfter(low, high, length), n + length)
  {
    var wrap := WordsAdvance(low, high, length);
    var q := 8 * n / 0x1_0000_0000_0000_0000;
    RemainderIs(8 * (n + length), q + wrap, LowAfter(low, length) + TWO_TO_THE_32 * HighAfter(low, high, length));
  }

  lemma CountGivesIndex(low: u32, high: u32, n: nat)
    requires Counts(low, high, n)
    ensures low / 8 % 64 == n % 64
  {
    var q := 8 * n / 0x1_0000_0000_0000_0000;
    var k := q * 0x80_0000_0000_0000 + high * 0x80_0000;
    assert 8 * n == q * TWO_TO_THE_64 + low + TWO_TO_THE_32 * high;
    assert n == 64 * k + low / 8;
    SameRemainder(k, low / 8);
  }

  lemma SameRemainder(k: nat, r: nat)
    ensures (64 * k + r) % 64 == r % 64
  {
  }

  lemma CountGivesLength(low: u32, high: u32, n: nat)
    requires Counts(low, high, n)
    ensures LittleEndian(low, 4) + LittleEndian(high, 4) == LittleEndian(8 * n % 0x1_0000_0000_0000_0000, 8)
  {
    LittleEndianOfParts(low, high, 4);
    ScaledByWord(high);
  }

  function Scaled(x: nat, k: nat): nat {
    if k == 0 then x else 256 * Scaled(x, k - 1)
  }

  lemma ScaledByWord(x: nat)
    ensures Scaled(x, 4) == TWO_TO_THE_32 * x
  {
    assert Scaled(x, 1) == 256 * x;
    assert Scaled(x, 2) == 0x1_0000 * x;
    assert Scaled(x, 3) == 0x100_0000 * x;
  }

  lemma {:induction false} LittleEndianOfParts(low: nat, high: nat, k: nat)
    requires low < Pow256(k)
    ensures LittleEndian(low, k) + LittleEndian(high, 4) == LittleEndian(low + Scaled(high, k), k + 4)
  {
    if k > 0 {
      LittleEndianOfParts(low / 256, high, k - 1);
      DivideByByte(low, Scaled(high, k - 1));
    }
  }

  lemma DivideByByte(low: nat, rest: nat)
    ensures (low + 256 * rest) / 256 == low / 256 + rest && (low + 256 * rest) % 256 == low % 256
  {
  }
}
