/** The MD5 class of md5.cpp: bytes come in by pieces, full blocks are worked in at once, the rest waits
    in a buffer. */
module Md5Stream {
  import opened Bytes
  import opened BlockStream
  import opened Md5Rounds
  import opened Md5Unrolled
  import opened Md5Spec
  import opened Md5Count

  /** `i + 64 <= length` is a 32-bit test. This is when it does not wrap at the last block of a call that
      starts with `index` bytes waiting. */
  ghost predicate LastBlockFits(index: nat, length: nat) {
    length < TWO_TO_THE_32 && 64 * ((index + length) / 64) - index + 64 < TWO_TO_THE_32
  }

  /** A length passed as a 32-bit argument. */
  function Cut(n: nat): (length: u32)
    ensures length <= n && (n < TWO_TO_THE_32 ==> length == n)
  {
    n % 0x1_0000_0000
  }

  // The loop of `update`, by the 32-bit offsets of its blocks

  /** Where block `k` of the loop is read, when the call began with `index` bytes waiting. */
  function BlockAt(index: nat, k: nat): nat
    requires index < 64
  {
    (64 * (k + 1) - index) % 0x1_0000_0000
  }

  /** The loop's test before block `k`. */
  predicate TakesBlock(index: nat, length: u32, k: nat)
    requires index < 64
  {
    (BlockAt(index, k) + 64) % 0x1_0000_0000 <= length
  }

  predicate BlockInInput(index: nat, length: u32, k: nat)
    requires index < 64
  {
    BlockAt(index, k) + 64 <= length
  }

  /** The loop ends, and every block it took lies in the input. */
  ghost predicate EndsInInput(index: nat, length: u32)
    requires index < 64
  {
    exists n: nat :: !TakesBlock(index, length, n) &&
                     forall k: nat :: k < n ==> TakesBlock(index, length, k) && BlockInInput(index, length, k)
  }

  lemma LoopSteps(index: nat, k: nat)
    requires index < 64
    ensures BlockAt(index, 0) == 64 - index
    ensures BlockAt(index, k + 1) == (BlockAt(index, k) + 64) % 0x1_0000_0000
  {
    AddThenWrap(64 * (k + 1) - index, 64);
  }

  lemma AddThenWrap(x: nat, y: nat)
    ensures (x % 0x1_0000_0000 + y) % 0x1_0000_0000 == (x + y) % 0x1_0000_0000
  {
    var q := x / 0x1_0000_0000;
    RemainderOfSum(x % 0x1_0000_0000 + y, q);
  }

  lemma RemainderOfSum(x: nat, q: nat)
    ensures (x + 0x1_0000_0000 * q) % 0x1_0000_0000 == x % 0x1_0000_0000
  {
  }

  /** Every offset is `index` short of a multiple of 64, wrapped or not. */
  lemma BlockAtIsMultiple(index: nat, k: nat) returns (j: nat)
    requires index < 64
    ensures BlockAt(index, k) + index == 64 * j
  {
    var x: nat := 64 * (k + 1) - index;
    j := k + 1 - 0x400_0000 * (x / 0x1_0000_0000);
  }

  lemma BlockBeforeWrap(index: nat, k: nat)
    requires index < 64 && 64 * (k + 1) - index < TWO_TO_THE_32
    ensures BlockAt(index, k) == 64 * (k + 1) - index
  {
  }

  /** When the last test wraps round, every test succeeds. */
  lemma TakesAnyBlock(index: nat, length: u32, k: nat)
    requires index < 64 && 64 - index <= length && !LastBlockFits(index, length)
    ensures TakesBlock(index, length, k)
  {
    var j := BlockAtIsMultiple(index, k);
    var blocks := (index + length) / 64;
    assert j <= blocks;
    if j < blocks {
      assert BlockAt(index, k) + 64 <= length;
    } else {
      assert BlockAt(index, k) + 64 - TWO_TO_THE_32 < 64;
    }
  }

  /** The loop then never ends, and it takes a block that is not in the input. */
  lemma LoopNeverEnds(index: nat, length: u32) returns (beyond: nat)
    requires index < 64 && 64 - index <= length && !LastBlockFits(index, length)
    ensures forall k: nat :: TakesBlock(index, length, k)
    ensures !BlockInInput(index, length, beyond) && forall k: nat :: k < beyond ==> BlockInInput(index, length, k)
  {
    beyond := (index + length) / 64 - 1;
    forall k: nat
      ensures TakesBlock(index, length, k)
      ensures k < beyond ==> BlockInInput(index, length, k)
    {
      TakesAnyBlock(index, length, k);
      if k < beyond {
        BlockBeforeWrap(index, k);
      }
    }
    BlockBeforeWrap(index, beyond);
  }

  /** The loop ends after blocks that all lie in the input exactly when its last test does not wrap. */
  lemma LoopIsRightIff(index: nat, length: u32)
    requires index < 64 && 64 - index <= length
    ensures EndsInInput(index, length) <==> LastBlockFits(index, length)
  {
    if LastBlockFits(index, length) {
      var n := (index + length) / 64 - 1;
      forall k: nat | k <= n
        ensures TakesBlock(index, length, k) <==> k < n
        ensures k < n ==> BlockInInput(index, length, k)
      {
        BlockBeforeWrap(index, k);
      }
      assert !TakesBlock(index, length, n);
    } else {
      var beyond := LoopNeverEnds(index, length);
    }
  }

  /** Calls of up to `2^32 - 65` bytes always fit. The longest call does not when nothing waits. */
  lemma WhichCallsFit(index: nat, length: u32)
    requires index < 64
    ensures length + 64 < TWO_TO_THE_32 ==> LastBlockFits(index, length)
    ensures !LastBlockFits(0, 0xFFFF_FFFF)
  {
  }

  /** The same, for whole blocks taken from `from` on. */
  ghost predicate BlocksFit(from: nat, length: u32)
    requires from <= length
  {
    from + 64 * ((length - from) / 64) + 64 < TWO_TO_THE_32
  }

  lemma BlocksFitAfterFirst(index: nat, length: u32)
    requires index < 64 && 64 - index <= length && LastBlockFits(index, length)
    ensures BlocksFit(64 - index, length)
  {
    assert (length - (64 - index)) / 64 == (index + length) / 64 - 1;
  }

  lemma TestIsExact(from: nat, length: u32, blocks: nat)
    requires from <= length && BlocksFit(from, length) && from + 64 * blocks <= length
    ensures (from + 64 * blocks + 64) % 0x1_0000_0000 == from + 64 * blocks + 64
  {
    assert blocks <= (length - from) / 64;
  }

  lemma SlicesJoin(before: seq<byte>, data: seq<byte>, from: nat, i: nat, to: nat)
    requires from <= i <= to <= |data|
    ensures before + data[from..i] + data[i..to] == before + data[from..to]
  {
  }

  lemma SliceOfSlice(data: seq<byte>, length: nat, i: nat, j: nat)
    requires i <= j <= length <= |data|
    ensures data[..length][i..j] == data[i..j]
  {
  }

  lemma PartsMakeWhole(before: seq<byte>, data: seq<byte>, first: nat, i: nat)
    requires first <= i <= |data|
    ensures before + data[..first] + data[first..i] + data[i..] == before + data
  {
  }

  /** The bytes after the last whole block do not reach the state. */
  lemma RestIsNotWorkedIn<S>(work: (S, seq<byte>) -> S, start: S,
                             before: seq<byte>, data: seq<byte>, first: nat, i: nat)
    requires first <= i <= |data| < i + 64 && Tail(before + data[..first] + data[first..i]) == []
    ensures Absorb(work, start, before + data) == Absorb(work, start, before + data[..first] + data[first..i])
  {
    PartsMakeWhole(before, data, first, i);
    AbsorbRest(work, start, before + data[..first] + data[first..i], data[i..]);
  }

  lemma RestWaits(before: seq<byte>, data: seq<byte>, first: nat, i: nat)
    requires first <= i <= |data| < i + 64 && Tail(before + data[..first] + data[first..i]) == []
    ensures Tail(before + data) == data[i..]
  {
    PartsMakeWhole(before, data, first, i);
    TailIsRest(before + data[..first] + data[first..i], data[i..]);
  }

  class Md5 {
    var finalized: bool
    const buffer: array<byte>
    const count: array<u32>
    const state: array<u32>
    const digest: array<byte>
    const operations: Operations<bv32>
    ghost const work: (Registers, seq<byte>) -> Registers // what `Transform` does
    ghost var base: Registers // the state that work started from
    ghost var message: seq<byte> // the bytes taken in since then

    function State(): Registers
      requires state.Length == 4
      reads this, state
    {
      Registers(state[0], state[1], state[2], state[3])
    }

    /** `work` is the compression function of section 3.4. */
    ghost predicate WorksIn() {
      forall state: Registers, block: seq<byte> {:trigger Compress(operations, state, WordsOf(block))} ::
        |block| == 64 ==> work(state, block) == Compress(operations, state, WordsOf(block))
    }

    ghost predicate Shape()
      reads this
    {
      && WorksIn()
      && buffer.Length == 64 && count.Length == 2 && state.Length == 4 && digest.Length == 16
      && buffer != digest && count != state
    }

    /** The state is the fold over the full blocks of the message, the buffer starts with exactly the
        bytes left over, and the count is of all of them. */
    ghost predicate Valid()
      reads this, buffer, count, state
    {
      && Shape()
      && State() == Absorb(work, base, message)
      && buffer[..|Tail(message)|] == Tail(message)
      && Counts(count[0], count[1], |message|)
    }

    constructor ()
      ensures Valid() && fresh(buffer) && fresh(count) && fresh(state) && fresh(digest)
      ensures operations == MD5_OPERATIONS && work == WorkIn(MD5_OPERATIONS)
      ensures base == INITIAL_STATE && message == [] && !finalized
    {
      buffer := new byte[64];
      count := new u32[2];
      state := new u32[4];
      digest := new byte[16];
      operations := MD5_OPERATIONS;
      work := WorkIn(MD5_OPERATIONS);
      new;
      Init();
    }

    /** The shortcut: the digest of a text, finished at once. Its length goes through 32 bits. */
    constructor FromText(text: array<byte>)
      requires LastBlockFits(0, Cut(text.Length))
      ensures Valid() && finalized && digest[..] == Digest(text[..Cut(text.Length)])
    {
      buffer := new byte[64];
      count := new u32[2];
      state := new u32[4];
      digest := new byte[16];
      operations := MD5_OPERATIONS;
      work := WorkIn(MD5_OPERATIONS);
      new;
      Init();
      TakeText(text, Cut(text.Length));
    }

    method TakeText(text: array<byte>, length: u32)
      requires Valid() && message == [] && !finalized && length <= text.Length && LastBlockFits(0, length)
      requires text != buffer && text != digest
      modifies this`finalized, this`base, this`message, buffer, count, state, digest
      ensures Valid() && finalized && digest[..] == DigestFrom(work, old(base), text[..length])
    {
      Update(text, length);
      assert message == text[..length];
      Finalize();
    }

    method Init()
      requires Shape()
      modifies this, count, state
      ensures Valid() && base == INITIAL_STATE && message == [] && !finalized
    {
      finalized := false;
      count[0], count[1] := 0, 0;
      state[0], state[1], state[2], state[3] := 0x67452301, 0xefcdab89, 0x98badcfe, 0x10325476;
      base := INITIAL_STATE;
      message := [];
    }

    static method Decode(output: array<u32>, input: array<byte>, from: nat, len: nat)
      requires len % 4 == 0 && from + len <= input.Length && len / 4 <= output.Length
      modifies output
      ensures output[..len / 4] == DecodeWords(input[from..from + len], len / 4)
    {
      var i, j := 0, 0;
      ghost var data, n := input[from..from + len], len / 4;
      while j < len
        invariant j == 4 * i && i <= n && len == 4 * n
        invariant output[..i] == DecodeWords(data, i)
      {
        output[i] := Word(input[from + j], input[from + j + 1], input[from + j + 2], input[from + j + 3]);
        assert output[..i + 1] == output[..i] + [output[i]];
        i := i + 1;
        j := j + 4;
      }
    }

    static method Encode(output: array<byte>, input: array<u32>, len: nat)
      requires len % 4 == 0 && len <= output.Length && len / 4 <= input.Length
      modifies output
      ensures output[..len] == EncodeWords(input[..], len / 4)
      ensures output[len..] == old(output[len..])
    {
      var i, j := 0, 0;
      ghost var n := len / 4;
      while j < len
        invariant j == 4 * i && i <= n && len == 4 * n
        invariant output[..j] == EncodeWords(input[..], i)
        invariant output[len..] == old(output[len..])
      {
        output[j] := input[i] % 0x100;
        output[j + 1] := input[i] / 0x100 % 0x100;
        output[j + 2] := input[i] / 0x1_0000 % 0x100;
        output[j + 3] := input[i] / 0x100_0000 % 0x100;
        FourBytes(input[i]);
        assert output[..j + 4] == output[..j] + output[j..j + 4];
        i := i + 1;
        j := j + 4;
      }
    }

    method Transform(block: array<byte>, from: nat)
      requires Shape() && from + 64 <= block.Length
      modifies state
      ensures State() == work(old(State()), block[from..from + 64])
    {
      var x := new u32[16];
      Decode(x, block, from, 64);
      ghost var words := WordsOf(block[from..from + 64]);
      assert x[..] == words;
      var r := AllRounds(operations, Loaded(State()), Machine(x[..]));
      AddToState(r);
      assert State() == Compress(operations, old(State()), words);
    }

    method AddToState(r: Words<bv32>)
      requires Shape()
      modifies state
      ensures State() == Sum(old(State()), r)
    {
      state[0] := Add(state[0], r.a as int);
      state[1] := Add(state[1], r.b as int);
      state[2] := Add(state[2], r.c as int);
      state[3] := Add(state[3], r.d as int);
    }

    /** `memcpy(&buffer[index], &input[from], n)` */
    method Fill(index: nat, input: array<byte>, from: nat, n: nat)
      requires Shape() && input != buffer && index + n <= 64 && from + n <= input.Length
      modifies buffer
      ensures buffer[..index] == old(buffer[..index])
      ensures buffer[index..index + n] == input[from..from + n]
    {
      for k := 0 to n
        invariant buffer[..index] == old(buffer[..index])
        invariant buffer[index..index + k] == input[from..from + k]
      {
        buffer[index + k] := input[from + k];
      }
    }

    /** How many bytes wait in the buffer. */
    method Waiting() returns (index: nat)
      requires Valid()
      ensures index == |Tail(message)|
    {
      CountGivesIndex(count[0], count[1], |message|);
      TailLength(message);
      index := count[0] / 8 % 64;
    }

    method AdvanceCount(length: u32, ghost n: nat)
      requires Shape() && Counts(count[0], count[1], n)
      modifies count
      ensures Counts(count[0], count[1], n + length)
    {
      CountAdvances(count[0], count[1], n, length);
      var bits := length * 8 % 0x1_0000_0000;
      count[0] := Add(count[0], bits);
      count[1] := Add(count[1], if count[0] < bits then 1 else 0);
      count[1] := Add(count[1], length / 0x2000_0000);
    }

    /** Works in the whole blocks of `input` from `from` on, up to where fewer than 64 bytes are left.
        `done` is what has been worked in since the state was `start`, `data` the input. */
    method WorkInBlocks(input: array<byte>, length: u32, from: nat,
                        ghost start: Registers, ghost done: seq<byte>, ghost data: seq<byte>)
      returns (i: nat)
      requires Shape() && from <= length <= input.Length && BlocksFit(from, length) && data == input[..length]
      requires Tail(done) == [] && State() == Absorb(work, start, done)
      modifies state
      ensures from <= i <= length < i + 64
      ensures Tail(done + data[from..i]) == []
      ensures State() == Absorb(work, start, done + data[from..i])
    {
      i := from;
      ghost var blocks, now := 0, done;
      while (i + 64) % 0x1_0000_0000 <= length
        invariant i == from + 64 * blocks <= length
        invariant now == done + data[from..i]
        invariant Tail(now) == [] && State() == Absorb(work, start, now)
        decreases length - i
      {
        TestIsExact(from, length, blocks);
        AbsorbNextBlock(work, start, now, data[i..i + 64]);
        SlicesJoin(done, data, from, i, i + 64);
        SliceOfSlice(input[..], length, i, i + 64);
        assert input[i..i + 64] == input[..][i..i + 64] && input[..length] == input[..][..length];
        Transform(input, i);
        now := now + data[i..i + 64];
        i := i + 64;
        blocks := blocks + 1;
      }
      TestIsExact(from, length, blocks);
    }

    /** Completes the waiting `index` bytes to a block, and goes on to the last whole block. */
    method CompleteBlocks(index: nat, input: array<byte>, length: u32, ghost data: seq<byte>) returns (i: nat)
      requires Shape() && input != buffer && index < 64 && 64 - index <= length <= input.Length
      requires LastBlockFits(index, length) && data == input[..length]
      modifies buffer, state
      ensures i <= length < i + 64
      ensures State() == Absorb(work, old(State()), old(buffer[..index]) + data)
      ensures Tail(old(buffer[..index]) + data) == data[i..]
    {
      ghost var start, before := State(), buffer[..index];
      ghost var block := before + data[..64 - index];
      FillRest(index, input, 0, 64 - index, data[..64 - index]);
      assert buffer[0..64] == block;
      Transform(buffer, 0);
      AbsorbNextBlock(work, start, [], block);
      assert [] + block == block;
      BlocksFitAfterFirst(index, length);
      i := WorkInBlocks(input, length, 64 - index, start, block, data);
      RestIsNotWorkedIn(work, start, before, data, 64 - index, i);
      RestWaits(before, data, 64 - index, i);
    }

    method Update(input: array<byte>, length: u32)
      requires Valid() && length <= input.Length && LastBlockFits(|Tail(message)|, length)
      requires input != buffer
      modifies this`message, buffer, count, state
      ensures Valid() && message == old(message) + input[..length]
    {
      ghost var tail, data := Tail(message), input[..length];
      var index := Waiting();
      AdvanceCount(length, |message|);
      var firstPart := 64 - index;
      var i := 0;
      if length >= firstPart {
        i := CompleteBlocks(index, input, length, data);
        index := 0;
      }
      FillRest(index, input, i, length, data[i..]);
      AbsorbMore(work, base, message, data);
      TailOfMore(message, data);
      message := message + data;
    }

    /** A finished digest is the one of the whole message. Finishing again changes nothing. */
    method Finalize()
      requires Valid()
      modifies this`finalized, this`base, this`message, buffer, count, state, digest
      ensures Valid() && finalized
      ensures !old(finalized) ==> digest[..] == DigestFrom(work, old(base), old(message))
      ensures !old(finalized) ==> buffer[..] == seq(64, i => 0) && count[..] == [0, 0] && message == []
      ensures !old(finalized) ==> State() == Absorb(work, old(base), Padded(old(message)))
      ensures old(finalized) ==> digest[..] == old(digest[..]) && State() == old(State())
      ensures old(finalized) ==> buffer[..] == old(buffer[..]) && count[..] == old(count[..])
      ensures old(finalized) ==> base == old(base) && message == old(message)
    {
      if !finalized {
        Pad();
        StoreDigest();
        Zero(buffer);
        count[0], count[1] := 0, 0;
        finalized := true;
        base, message := State(), [];
      }
    }

    /** The bit count as it is now, low-order byte first. */
    method SaveCount() returns (bits: array<byte>)
      requires Valid()
      ensures fresh(bits) && bits.Length == 8 && bits[..8] == LittleEndian(8 * |message| % 0x1_0000_0000_0000_0000, 8)
    {
      bits := new byte[8];
      Encode(bits, count, 8);
      CountWords(count[..]);
      CountGivesLength(count[0], count[1], |message|);
    }

    method PadLength() returns (padLen: nat)
      requires Valid()
      ensures padLen == |Padding(|message|)| <= 64
    {
      var index := Waiting();
      TailLength(message);
      PaddingLength(|message|);
      padLen := if index < 56 then 56 - index else 120 - index;
    }

    static method PaddingBytes(ghost n: nat) returns (padding: array<byte>)
      requires |Padding(n)| <= 64
      ensures fresh(padding) && padding.Length == 64 && padding[..|Padding(n)|] == Padding(n)
    {
      padding := new byte[64](i => if i == 0 then 0x80 else 0);
    }

    /** Takes in padding and then the bit count as it was before. */
    method Pad()
      requires Valid()
      modifies this`message, buffer, count, state
      ensures Valid() && message == Padded(old(message)) && Tail(message) == []
    {
      var bits := SaveCount();
      var padLen := PadLength();
      var padding := PaddingBytes(|message|);
      PaddedFillsBlocks(message);
      Update(padding, padLen);
      Update(bits, 8);
    }

    method StoreDigest()
      requires Shape()
      modifies digest
      ensures digest[..] == EncodeState(State())
    {
      Encode(digest, state, 16);
      assert digest[..16] == digest[..];
      StateWords(state[..]);
    }

    method Zero(a: array<byte>)
      modifies a
      ensures a[..] == seq(a.Length, i => 0)
    {
      for i := 0 to a.Length
        invariant forall k :: 0 <= k < i ==> a[k] == 0
      {
        a[i] := 0;
      }
    }

    /** `memcpy(&buffer[index], &input[i], to - i)`, after which the buffer starts with both. */
    method FillRest(index: nat, input: array<byte>, i: nat, to: nat, ghost rest: seq<byte>)
      requires Shape() && input != buffer && i <= to <= input.Length && index + (to - i) <= 64
      requires rest == input[i..to]
      modifies buffer
      ensures buffer[..index + (to - i)] == old(buffer[..index]) + rest
    {
      Fill(index, input, i, to - i);
      assert buffer[..index + (to - i)] == buffer[..index] + buffer[index..index + (to - i)];
    }
  }

  /** The first `n` words, each low-order byte first. */
  function EncodeWords(words: seq<u32>, n: nat): (bytes: seq<byte>)
    requires n <= |words|
    ensures |bytes| == 4 * n
  {
    if n == 0 then [] else EncodeWords(words, n - 1) + LittleEndian(words[n - 1], 4)
  }

  lemma FourBytes(w: u32)
    ensures LittleEndian(w, 4) == [w % 0x100, w / 0x100 % 0x100, w / 0x1_0000 % 0x100, w / 0x100_0000 % 0x100]
  {
    assert LittleEndian(w, 4) == [w % 0x100] + LittleEndian(w / 0x100, 3);
    assert LittleEndian(w / 0x100, 3) == [w / 0x100 % 0x100] + LittleEndian(w / 0x1_0000, 2);
  }

  lemma StateWords(words: seq<u32>)
    requires |words| == 4
    ensures EncodeWords(words, 4) == EncodeState(Registers(words[0], words[1], words[2], words[3]))
  {
    assert EncodeWords(words, 1) == LittleEndian(words[0], 4);
    assert EncodeWords(words, 2) == LittleEndian(words[0], 4) + LittleEndian(words[1], 4);
    assert EncodeWords(words, 3) == LittleEndian(words[0], 4) + LittleEndian(words[1], 4) + LittleEndian(words[2], 4);
  }

  lemma CountWords(words: seq<u32>)
    requires |words| == 2
    ensures EncodeWords(words, 2) == LittleEndian(words[0], 4) + LittleEndian(words[1], 4)
  {
    assert EncodeWords(words, 1) == LittleEndian(words[0], 4);
  }
}
