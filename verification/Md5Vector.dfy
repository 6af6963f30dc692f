/** A digest that RFC 1321 publishes, worked out round by round. It ties the tables, the order of the words, the
    sums at the end of a block, the first state and the padding to something they are not defined from. */
module Md5Vector {
  import opened Bytes
  import opened BlockStream
  import opened Md5Rounds
  import opened Md5Spec

  /** The words of a block in the order in which a round reads them. */
  function InOrder<W>(round: nat, x: seq<W>): (words: seq<W>)
    requires |x| == 16
    ensures |words| == 16
  {
    seq(16, i requires 0 <= i < 16 => x[WordIndex(round, i)])
  }

  lemma FirstOrder<W>(x: seq<W>)
    requires |x| == 16
    ensures InOrder(0, x) ==
            [x[0], x[1], x[2], x[3], x[4], x[5], x[6], x[7], x[8], x[9], x[10], x[11], x[12], x[13], x[14], x[15]]
  {
  }

  lemma SecondOrder<W>(x: seq<W>)
    requires |x| == 16
    ensures InOrder(1, x) ==
            [x[1], x[6], x[11], x[0], x[5], x[10], x[15], x[4], x[9], x[14], x[3], x[8], x[13], x[2], x[7], x[12]]
  {
  }

  lemma ThirdOrder<W>(x: seq<W>)
    requires |x| == 16
    ensures InOrder(2, x) ==
            [x[5], x[8], x[11], x[14], x[1], x[4], x[7], x[10], x[13], x[0], x[3], x[6], x[9], x[12], x[15], x[2]]
  {
  }

  lemma FourthOrder<W>(x: seq<W>)
    requires |x| == 16
    ensures InOrder(3, x) ==
            [x[0], x[7], x[14], x[5], x[12], x[3], x[10], x[1], x[8], x[15], x[6], x[13], x[4], x[11], x[2], x[9]]
  {
  }

  // The steps with the operations put in

  function Mixed(round: nat, b: bv32, c: bv32, d: bv32): bv32 {
    if round == 0 then F(b, c, d) else if round == 1 then G(b, c, d) else if round == 2 then H(b, c, d) else I(b, c, d)
  }

  function Turn(round: nat, i: nat, r: Words<bv32>, word: bv32): Words<bv32> {
    Words(r.d, Combine(r.a, Mixed(round, r.b, r.c, r.d), word, Shift(round, i), Sine(round, i), r.b), r.b, r.c)
  }

  function Turns(round: nat, n: nat, r: Words<bv32>, words: seq<bv32>): Words<bv32>
    requires n <= |words|
    decreases n
  {
    if n == 0 then r else Turn(round, n - 1, Turns(round, n - 1, r, words), words[n - 1])
  }

  lemma StepIsTurn(round: nat, i: nat, r: Words<bv32>, x: seq<bv32>)
    requires |x| == 16
    ensures Step(MD5_OPERATIONS, round, i, r, x) == Turn(round, i, r, x[WordIndex(round, i)])
  {
  }

  lemma {:induction false} StepsAreTurns(round: nat, n: nat, r: Words<bv32>, x: seq<bv32>)
    requires |x| == 16 && round < 4 && n <= 16
    ensures Steps(MD5_OPERATIONS, round, n, r, x) == Turns(round, n, r, InOrder(round, x))
  {
    if n > 0 {
      StepsAreTurns(round, n - 1, r, x);
      StepIsTurn(round, n - 1, Steps(MD5_OPERATIONS, round, n - 1, r, x), x);
    }
  }

  // The two blocks

  ghost predicate IsFirstBlock(x: seq<bv32>) {
    x == [0x44434241, 0x48474645, 0x4c4b4a49, 0x504f4e4d, 0x54535251, 0x58575655, 0x62615a59, 0x66656463,
          0x6a696867, 0x6e6d6c6b, 0x7271706f, 0x76757473, 0x7a797877, 0x33323130, 0x37363534, 0x00803938]
  }

  lemma FirstBlock0(x: seq<bv32>)
    requires IsFirstBlock(x)
    ensures Turns(0, 16, Words(0x67452301, 0xefcdab89, 0x98badcfe, 0x10325476), InOrder(0, x))
            == Words(0x3cbdcd45, 0x5d38e690, 0xfa148c8a, 0xb8dec763)
  {
    FirstOrder(x);
    var s, words := Words(0x67452301, 0xefcdab89, 0x98badcfe, 0x10325476), InOrder(0, x);
    assert Turns(0, 4, s, words) == Words(0xc6c10796, 0x27bce07a, 0x11067980, 0x99a09999);
    assert Turns(0, 8, s, words) == Words(0xf22e6c4e, 0xa4799506, 0xa95a2fc0, 0xb4ac9218);
    assert Turns(0, 12, s, words) == Words(0x1eb3e7c1, 0x8a7612ec, 0xca27520b, 0xa6e70cfe);
  }

  lemma FirstBlock1(x: seq<bv32>)
    requires IsFirstBlock(x)
    ensures Turns(1, 16, Words(0x3cbdcd45, 0x5d38e690, 0xfa148c8a, 0xb8dec763), InOrder(1, x))
            == Words(0x9b085fa9, 0xdd789ecc, 0x5993248f, 0x4400a9bd)
  {
    SecondOrder(x);
    var s, words := Words(0x3cbdcd45, 0x5d38e690, 0xfa148c8a, 0xb8dec763), InOrder(1, x);
    assert Turns(1, 4, s, words) == Words(0x04b9d52a, 0x47ae7c81, 0xd3ee3ed1, 0x783002eb);
    assert Turns(1, 8, s, words) == Words(0x2d7d8a3f, 0x75292030, 0x4b534dc3, 0xd1210823);
    assert Turns(1, 12, s, words) == Words(0x9d2a6e33, 0xf2ff6ea0, 0xd473b564, 0x0e8d2e44);
  }

  lemma FirstBlock2(x: seq<bv32>)
    requires IsFirstBlock(x)
    ensures Turns(2, 16, Words(0x9b085fa9, 0xdd789ecc, 0x5993248f, 0x4400a9bd), InOrder(2, x))
            == Words(0x2dbee21d, 0xf166f514, 0xee46e961, 0xe95c3a43)
  {
    ThirdOrder(x);
    var s, words := Words(0x9b085fa9, 0xdd789ecc, 0x5993248f, 0x4400a9bd), InOrder(2, x);
    assert Turns(2, 4, s, words) == Words(0x21c8d2b7, 0x1b9504f8, 0x056ec119, 0x1d55a18e);
    assert Turns(2, 8, s, words) == Words(0x436b7fe9, 0xcf0341ed, 0xf404c2f6, 0x075800c1);
    assert Turns(2, 12, s, words) == Words(0x888e7d8a, 0x047b9419, 0xce620273, 0xbbdaecd8);
  }

  lemma FirstBlock3(x: seq<bv32>)
    requires IsFirstBlock(x)
    ensures Turns(3, 16, Words(0x2dbee21d, 0xf166f514, 0xee46e961, 0xe95c3a43), InOrder(3, x))
            == Words(0x1cb80f0a, 0xef2e3a46, 0x10f68731, 0xea3d3eb4)
  {
    FourthOrder(x);
    var s, words := Words(0x2dbee21d, 0xf166f514, 0xee46e961, 0xe95c3a43), InOrder(3, x);
    assert Turns(3, 4, s, words) == Words(0xe47fd4f3, 0x7a13bc5c, 0xf22aedcc, 0xfb887751);
    assert Turns(3, 8, s, words) == Words(0xa691d430, 0xefb0e72f, 0x3fc23df6, 0x528452f2);
    assert Turns(3, 12, s, words) == Words(0x27145703, 0x49d9a5b4, 0x374fbe79, 0x21a11069);
  }

  /** Nothing but the length. */
  ghost predicate IsSecondBlock(x: seq<bv32>) {
    x == seq(16, k => if k == 14 then 0x000001f0 else 0)
  }

  lemma SecondBlock0(x: seq<bv32>)
    requires IsSecondBlock(x)
    ensures Turns(0, 16, Words(0x83fd320b, 0xdefbe5cf, 0xa9b1642f, 0xfa6f932a), InOrder(0, x))
            == Words(0xa70737da, 0xa36f556f, 0x96f6586e, 0x5473f8a7)
  {
    FirstOrder(x);
    var s, words := Words(0x83fd320b, 0xdefbe5cf, 0xa9b1642f, 0xfa6f932a), InOrder(0, x);
    assert Turns(0, 4, s, words) == Words(0xeda23ed1, 0xddcf0634, 0x3c307338, 0x989939cf);
    assert Turns(0, 8, s, words) == Words(0x75144433, 0x99b6b699, 0xc783cb60, 0xc8875807);
    assert Turns(0, 12, s, words) == Words(0xa60a3f69, 0x64cc7c5a, 0x64db26e9, 0xaa6630be);
  }

  lemma SecondBlock1(x: seq<bv32>)
    requires IsSecondBlock(x)
    ensures Turns(1, 16, Words(0xa70737da, 0xa36f556f, 0x96f6586e, 0x5473f8a7), InOrder(1, x))
            == Words(0x24eba695, 0x9c03e2e8, 0x10c42a2f, 0x4bd0378b)
  {
    SecondOrder(x);
    var s, words := Words(0xa70737da, 0xa36f556f, 0x96f6586e, 0x5473f8a7), InOrder(1, x);
    assert Turns(1, 4, s, words) == Words(0xa5050ad3, 0x82b8827c, 0x27dcd8b4, 0x28776046);
    assert Turns(1, 8, s, words) == Words(0xe04f070c, 0xdf35cb56, 0xc0d22b61, 0x2f3cd2a2);
    assert Turns(1, 12, s, words) == Words(0x242dd210, 0x2291191a, 0x5c295967, 0x576ace33);
  }

  lemma SecondBlock2(x: seq<bv32>)
    requires IsSecondBlock(x)
    ensures Turns(2, 16, Words(0x24eba695, 0x9c03e2e8, 0x10c42a2f, 0x4bd0378b), InOrder(2, x))
            == Words(0x54c9eb3a, 0x79c0710a, 0x2ec86f72, 0xd4d9c6ac)
  {
    ThirdOrder(x);
    var s, words := Words(0x24eba695, 0x9c03e2e8, 0x10c42a2f, 0x4bd0378b), InOrder(2, x);
    assert Turns(2, 4, s, words) == Words(0x5be1d526, 0xa2448453, 0x9f4a1a7e, 0x9e414279);
    assert Turns(2, 8, s, words) == Words(0xe14e403d, 0xfe314121, 0x60cc183a, 0xe8cfd670);
    assert Turns(2, 12, s, words) == Words(0xfff62809, 0x7c7e974c, 0x8cb5221c, 0xe37209ac);
  }

  lemma SecondBlock3(x: seq<bv32>)
    requires IsSecondBlock(x)
    ensures Turns(3, 16, Words(0x54c9eb3a, 0x79c0710a, 0x2ec86f72, 0xd4d9c6ac), InOrder(3, x))
            == Words(0x14ae42c6, 0x16dd9203, 0x826afd76, 0xa52dae75)
  {
    FourthOrder(x);
    var s, words := Words(0x54c9eb3a, 0x79c0710a, 0x2ec86f72, 0xd4d9c6ac), InOrder(3, x);
    assert Turns(3, 4, s, words) == Words(0x02095af1, 0x2ba98e3f, 0xa8dcfe26, 0x13d245fd);
    assert Turns(3, 8, s, words) == Words(0xe126c1aa, 0xfb7bcee0, 0x6f287ff5, 0x96b00fa7);
    assert Turns(3, 12, s, words) == Words(0x452c1099, 0x5ac74608, 0xc197ea8e, 0xca801ba6);
  }

  lemma FirstBlockRounds(x: seq<bv32>)
    requires IsFirstBlock(x)
    ensures Rounds(MD5_OPERATIONS, Words(0x67452301, 0xefcdab89, 0x98badcfe, 0x10325476), x)
            == Words(0x1cb80f0a, 0xef2e3a46, 0x10f68731, 0xea3d3eb4)
  {
    FirstBlock0(x);
    StepsAreTurns(0, 16, Words(0x67452301, 0xefcdab89, 0x98badcfe, 0x10325476), x);
    FirstBlock1(x);
    StepsAreTurns(1, 16, Words(0x3cbdcd45, 0x5d38e690, 0xfa148c8a, 0xb8dec763), x);
    FirstBlock2(x);
    StepsAreTurns(2, 16, Words(0x9b085fa9, 0xdd789ecc, 0x5993248f, 0x4400a9bd), x);
    FirstBlock3(x);
    StepsAreTurns(3, 16, Words(0x2dbee21d, 0xf166f514, 0xee46e961, 0xe95c3a43), x);
  }

  lemma SecondBlockRounds(x: seq<bv32>)
    requires IsSecondBlock(x)
    ensures Rounds(MD5_OPERATIONS, Words(0x83fd320b, 0xdefbe5cf, 0xa9b1642f, 0xfa6f932a), x)
            == Words(0x14ae42c6, 0x16dd9203, 0x826afd76, 0xa52dae75)
  {
    SecondBlock0(x);
    StepsAreTurns(0, 16, Words(0x83fd320b, 0xdefbe5cf, 0xa9b1642f, 0xfa6f932a), x);
    SecondBlock1(x);
    StepsAreTurns(1, 16, Words(0xa70737da, 0xa36f556f, 0x96f6586e, 0x5473f8a7), x);
    SecondBlock2(x);
    StepsAreTurns(2, 16, Words(0x24eba695, 0x9c03e2e8, 0x10c42a2f, 0x4bd0378b), x);
    SecondBlock3(x);
    StepsAreTurns(3, 16, Words(0x54c9eb3a, 0x79c0710a, 0x2ec86f72, 0xd4d9c6ac), x);
  }

  predicate Same(v: u32, w: bv32) {
    v == w as int
  }

  lemma MachineIs(words: seq<u32>, x: seq<bv32>)
    requires |words| == |x| && forall k :: 0 <= k < |x| ==> Same(words[k], x[k])
    ensures Machine(words) == x
  {
    forall k | 0 <= k < |x|
      ensures Machine(words)[k] == x[k]
    {
      assert Same(words[k], x[k]);
    }
  }

  // The message

  /** Byte `i` of the letters and digits, one of the texts of section A.5 of RFC 1321, after padding. */
  function PaddedByte(i: nat): byte {
    if i < 26 then 'A' as int + i else if i < 52 then 'a' as int + i - 26 else if i < 62 then '0' as int + i - 52
    else if i == 62 then 0x80 else if i == 120 then 0xF0 else if i == 121 then 0x01 else 0
  }

  function Text(): seq<byte> {
    seq(62, i requires 0 <= i < 62 => PaddedByte(i))
  }

  function PaddedText(): seq<byte> {
    seq(128, i requires 0 <= i < 128 => PaddedByte(i))
  }

  lemma TextIsPadded()
    ensures Padded(Text()) == PaddedText()
  {
    assert |Padding(62)| == 58;
    LengthBytes();
  }

  lemma LengthBytes()
    ensures LittleEndian(8 * 62, 8) == [0xF0, 0x01, 0, 0, 0, 0, 0, 0]
  {
    assert LittleEndian(0, 2) == [0, 0];
    assert LittleEndian(0, 4) == [0, 0] + LittleEndian(0, 2);
    assert LittleEndian(0, 6) == [0, 0] + LittleEndian(0, 4);
    assert LittleEndian(1, 7) == [1] + LittleEndian(0, 6);
  }

  lemma {:induction false} DecodedWord(bytes: seq<byte>, n: nat, k: nat)
    requires 4 * n <= |bytes| && k < n
    ensures DecodeWords(bytes, n)[k] == Word(bytes[4 * k], bytes[4 * k + 1], bytes[4 * k + 2], bytes[4 * k + 3])
  {
    if k < n - 1 {
      DecodedWord(bytes, n - 1, k);
    }
  }

  /** `words` are those of the block of padded text that starts at `from`. */
  ghost predicate AreWords(words: seq<u32>, from: nat) {
    |words| == 16 && forall k :: 0 <= k < 16 ==> words[k] == TextWord(from + 4 * k)
  }

  function TextWord(i: nat): u32 {
    Word(PaddedByte(i), PaddedByte(i + 1), PaddedByte(i + 2), PaddedByte(i + 3))
  }

  lemma BlockWords(from: nat)
    requires from <= 64
    ensures AreWords(WordsOf(PaddedText()[from..from + 64]), from)
  {
    var block := PaddedText()[from..from + 64];
    forall k | 0 <= k < 16
      ensures WordsOf(block)[k] == TextWord(from + 4 * k)
    {
      DecodedWord(block, |block| / 4, k);
    }
  }

  ghost predicate AreFirstWords(words: seq<u32>) {
    words == [0x44434241, 0x48474645, 0x4c4b4a49, 0x504f4e4d, 0x54535251, 0x58575655, 0x62615a59, 0x66656463,
              0x6a696867, 0x6e6d6c6b, 0x7271706f, 0x76757473, 0x7a797877, 0x33323130, 0x37363534, 0x00803938]
  }

  lemma FirstWords(words: seq<u32>)
    requires AreWords(words, 0)
    ensures AreFirstWords(words)
  {
  }

  lemma FirstMachine(words: seq<u32>)
    requires AreFirstWords(words)
    ensures IsFirstBlock(Machine(words))
  {
    var x: seq<bv32> :=
      [0x44434241, 0x48474645, 0x4c4b4a49, 0x504f4e4d, 0x54535251, 0x58575655, 0x62615a59, 0x66656463,
       0x6a696867, 0x6e6d6c6b, 0x7271706f, 0x76757473, 0x7a797877, 0x33323130, 0x37363534, 0x00803938];
    assert Same(0x00803938, 0x00803938) && Same(0x33323130, 0x33323130);
    assert Same(0x37363534, 0x37363534) && Same(0x44434241, 0x44434241);
    assert Same(0x48474645, 0x48474645) && Same(0x4c4b4a49, 0x4c4b4a49);
    assert Same(0x504f4e4d, 0x504f4e4d) && Same(0x54535251, 0x54535251);
    assert Same(0x58575655, 0x58575655) && Same(0x62615a59, 0x62615a59);
    assert Same(0x66656463, 0x66656463) && Same(0x6a696867, 0x6a696867);
    assert Same(0x6e6d6c6b, 0x6e6d6c6b) && Same(0x7271706f, 0x7271706f);
    assert Same(0x76757473, 0x76757473) && Same(0x7a797877, 0x7a797877);
    MachineIs(words, x);
  }

  ghost predicate AreSecondWords(words: seq<u32>) {
    words == seq(16, k => if k == 14 then 0x000001f0 else 0)
  }

  lemma SecondTextWord(k: nat)
    requires k < 16
    ensures TextWord(64 + 4 * k) == if k == 14 then 0x000001f0 else 0
  {
  }

  lemma SecondWords(words: seq<u32>)
    requires AreWords(words, 64)
    ensures AreSecondWords(words)
  {
    forall k | 0 <= k < 16
      ensures words[k] == if k == 14 then 0x000001f0 else 0
    {
      SecondTextWord(k);
    }
  }

  lemma SecondMachine(words: seq<u32>)
    requires AreSecondWords(words)
    ensures IsSecondBlock(Machine(words))
  {
    var x: seq<bv32> := seq(16, k => if k == 14 then 0x000001f0 else 0);
    assert Same(0, 0) && Same(0x000001f0, 0x000001f0);
    MachineIs(words, x);
  }

  lemma LoadedIs(a: bv32, b: bv32, c: bv32, d: bv32)
    ensures Loaded(Registers(a as int, b as int, c as int, d as int)) == Words(a, b, c, d)
  {
  }

  lemma SumIs(s: Registers, a: bv32, b: bv32, c: bv32, d: bv32)
    ensures Sum(s, Words(a, b, c, d))
            == Registers(Add(s.a, a as int), Add(s.b, b as int), Add(s.c, c as int), Add(s.d, d as int))
  {
  }

  lemma CompressIs(o: Operations<bv32>, state: Registers, words: seq<u32>)
    requires |words| == 16
    ensures Compress(o, state, words) == Sum(state, Rounds(o, Loaded(state), Machine(words)))
  {
  }

  lemma FirstStart()
    ensures Loaded(Registers(0x67452301, 0xefcdab89, 0x98badcfe, 0x10325476))
            == Words(0x67452301, 0xefcdab89, 0x98badcfe, 0x10325476)
  {
    LoadedIs(0x67452301, 0xefcdab89, 0x98badcfe, 0x10325476);
  }

  lemma FirstSum()
    ensures Sum(Registers(0x67452301, 0xefcdab89, 0x98badcfe, 0x10325476),
                Words(0x1cb80f0a, 0xef2e3a46, 0x10f68731, 0xea3d3eb4))
            == Registers(0x83fd320b, 0xdefbe5cf, 0xa9b1642f, 0xfa6f932a)
  {
    SumIs(Registers(0x67452301, 0xefcdab89, 0x98badcfe, 0x10325476), 0x1cb80f0a, 0xef2e3a46, 0x10f68731, 0xea3d3eb4);
  }

  lemma FirstRounds(words: seq<u32>)
    requires AreFirstWords(words)
    ensures Rounds(MD5_OPERATIONS, Words(0x67452301, 0xefcdab89, 0x98badcfe, 0x10325476), Machine(words))
            == Words(0x1cb80f0a, 0xef2e3a46, 0x10f68731, 0xea3d3eb4)
  {
    FirstMachine(words);
    FirstBlockRounds(Machine(words));
  }

  lemma FirstCompressed(words: seq<u32>)
    requires AreFirstWords(words)
    ensures Compress(MD5_OPERATIONS, Registers(0x67452301, 0xefcdab89, 0x98badcfe, 0x10325476), words)
            == Registers(0x83fd320b, 0xdefbe5cf, 0xa9b1642f, 0xfa6f932a)
  {
    FirstRounds(words);
    FirstStart();
    FirstSum();
    CompressIs(MD5_OPERATIONS, Registers(0x67452301, 0xefcdab89, 0x98badcfe, 0x10325476), words);
  }

  lemma SecondStart()
    ensures Loaded(Registers(0x83fd320b, 0xdefbe5cf, 0xa9b1642f, 0xfa6f932a))
            == Words(0x83fd320b, 0xdefbe5cf, 0xa9b1642f, 0xfa6f932a)
  {
    LoadedIs(0x83fd320b, 0xdefbe5cf, 0xa9b1642f, 0xfa6f932a);
  }

  lemma SecondSum()
    ensures Sum(Registers(0x83fd320b, 0xdefbe5cf, 0xa9b1642f, 0xfa6f932a),
                Words(0x14ae42c6, 0x16dd9203, 0x826afd76, 0xa52dae75))
            == Registers(0x98ab74d1, 0xf5d977d2, 0x2c1c61a5, 0x9f9d419f)
  {
    SumIs(Registers(0x83fd320b, 0xdefbe5cf, 0xa9b1642f, 0xfa6f932a), 0x14ae42c6, 0x16dd9203, 0x826afd76, 0xa52dae75);
  }

  lemma SecondRounds(words: seq<u32>)
    requires AreSecondWords(words)
    ensures Rounds(MD5_OPERATIONS, Words(0x83fd320b, 0xdefbe5cf, 0xa9b1642f, 0xfa6f932a), Machine(words))
            == Words(0x14ae42c6, 0x16dd9203, 0x826afd76, 0xa52dae75)
  {
    SecondMachine(words);
    SecondBlockRounds(Machine(words));
  }

  lemma SecondCompressed(words: seq<u32>)
    requires AreSecondWords(words)
    ensures Compress(MD5_OPERATIONS, Registers(0x83fd320b, 0xdefbe5cf, 0xa9b1642f, 0xfa6f932a), words)
            == Registers(0x98ab74d1, 0xf5d977d2, 0x2c1c61a5, 0x9f9d419f)
  {
    SecondRounds(words);
    SecondStart();
    SecondSum();
    CompressIs(MD5_OPERATIONS, Registers(0x83fd320b, 0xdefbe5cf, 0xa9b1642f, 0xfa6f932a), words);
  }

  lemma FirstWordsOfText()
    ensures AreFirstWords(WordsOf(PaddedText()[0..64]))
  {
    BlockWords(0);
    FirstWords(WordsOf(PaddedText()[0..64]));
  }

  lemma SecondWordsOfText()
    ensures AreSecondWords(WordsOf(PaddedText()[64..128]))
  {
    BlockWords(64);
    SecondWords(WordsOf(PaddedText()[64..128]));
  }

  // The whole text, for whatever does that to the words of the two blocks

  ghost predicate CompressesText(compress: (Registers, seq<u32>) -> Registers) {
    && (forall words :: AreFirstWords(words) ==>
          compress(Registers(0x67452301, 0xefcdab89, 0x98badcfe, 0x10325476), words)
          == Registers(0x83fd320b, 0xdefbe5cf, 0xa9b1642f, 0xfa6f932a))
    && forall words :: AreSecondWords(words) ==>
         compress(Registers(0x83fd320b, 0xdefbe5cf, 0xa9b1642f, 0xfa6f932a), words)
         == Registers(0x98ab74d1, 0xf5d977d2, 0x2c1c61a5, 0x9f9d419f)
  }

  ghost predicate WorksBy(work: (Registers, seq<byte>) -> Registers, compress: (Registers, seq<u32>) -> Registers) {
    forall state: Registers, block: seq<byte> :: |block| == 64 ==>
      work(state, block) == compress(state, WordsOf(block))
  }

  lemma TwoBlocksAbsorbed(work: (Registers, seq<byte>) -> Registers, compress: (Registers, seq<u32>) -> Registers,
                          m: seq<byte>, s: Registers, first: Registers, second: Registers)
    requires WorksBy(work, compress) && |m| == 128
    requires compress(s, WordsOf(m[0..64])) == first && compress(first, WordsOf(m[64..128])) == second
    ensures Absorb(work, s, m) == second
  {
    assert m[..64] == m[0..64] && m[64..][..64] == m[64..128];
    assert Absorb(work, second, m[64..][64..]) == second;
    assert Absorb(work, first, m[64..]) == second;
  }

  lemma TextAbsorbed(work: (Registers, seq<byte>) -> Registers, compress: (Registers, seq<u32>) -> Registers,
                     m: seq<byte>)
    requires CompressesText(compress) && WorksBy(work, compress)
    requires |m| == 128 && AreFirstWords(WordsOf(m[0..64])) && AreSecondWords(WordsOf(m[64..128]))
    ensures Absorb(work, Registers(0x67452301, 0xefcdab89, 0x98badcfe, 0x10325476), m)
            == Registers(0x98ab74d1, 0xf5d977d2, 0x2c1c61a5, 0x9f9d419f)
  {
    TwoBlocksAbsorbed(work, compress, m, Registers(0x67452301, 0xefcdab89, 0x98badcfe, 0x10325476),
                      Registers(0x83fd320b, 0xdefbe5cf, 0xa9b1642f, 0xfa6f932a),
                      Registers(0x98ab74d1, 0xf5d977d2, 0x2c1c61a5, 0x9f9d419f));
  }

  function Compressing(o: Operations<bv32>): (Registers, seq<u32>) -> Registers {
    (state: Registers, words: seq<u32>) => if |words| == 16 then Compress(o, state, words) else state
  }

  lemma Md5Compresses()
    ensures CompressesText(Compressing(MD5_OPERATIONS))
  {
    forall words | AreFirstWords(words)
      ensures Compressing(MD5_OPERATIONS)(Registers(0x67452301, 0xefcdab89, 0x98badcfe, 0x10325476), words)
              == Registers(0x83fd320b, 0xdefbe5cf, 0xa9b1642f, 0xfa6f932a)
    {
      FirstCompressed(words);
    }
    forall words | AreSecondWords(words)
      ensures Compressing(MD5_OPERATIONS)(Registers(0x83fd320b, 0xdefbe5cf, 0xa9b1642f, 0xfa6f932a), words)
              == Registers(0x98ab74d1, 0xf5d977d2, 0x2c1c61a5, 0x9f9d419f)
    {
      SecondCompressed(words);
    }
  }

  lemma Md5Works(o: Operations<bv32>)
    ensures WorksBy(WorkIn(o), Compressing(o))
  {
  }

  lemma LowByte(b: byte, rest: nat)
    ensures (b + 256 * rest) % 256 == b && (b + 256 * rest) / 256 == rest
  {
  }

  lemma RegisterBytes(v: u32, b0: byte, b1: byte, b2: byte, b3: byte)
    requires v == Word(b0, b1, b2, b3)
    ensures LittleEndian(v, 4) == [b0, b1, b2, b3]
  {
    LowByte(b0, b1 + 256 * (b2 + 256 * b3));
    LowByte(b1, b2 + 256 * b3);
    LowByte(b2, b3);
    assert LittleEndian(b3, 1) == [b3] + LittleEndian(0, 0);
    assert LittleEndian(b2 + 256 * b3, 2) == [b2] + LittleEndian(b3, 1);
    assert LittleEndian(b1 + 256 * (b2 + 256 * b3), 3) == [b1] + LittleEndian(b2 + 256 * b3, 2);
  }

  lemma StateEncoded()
    ensures EncodeState(Registers(0x98ab74d1, 0xf5d977d2, 0x2c1c61a5, 0x9f9d419f)) ==
            [0xd1, 0x74, 0xab, 0x98] + [0xd2, 0x77, 0xd9, 0xf5]
            + [0xa5, 0x61, 0x1c, 0x2c] + [0x9f, 0x41, 0x9d, 0x9f]
  {
    RegisterBytes(0x98ab74d1, 0xd1, 0x74, 0xab, 0x98);
    RegisterBytes(0xf5d977d2, 0xd2, 0x77, 0xd9, 0xf5);
    RegisterBytes(0x2c1c61a5, 0xa5, 0x61, 0x1c, 0x2c);
    RegisterBytes(0x9f9d419f, 0x9f, 0x41, 0x9d, 0x9f);
  }

  /** The digest that section A.5 of RFC 1321 gives for the letters and digits. */
  lemma TextDigest()
    ensures Digest(Text()) ==
            [0xd1, 0x74, 0xab, 0x98] + [0xd2, 0x77, 0xd9, 0xf5]
            + [0xa5, 0x61, 0x1c, 0x2c] + [0x9f, 0x41, 0x9d, 0x9f]
  {
    TextIsPadded();
    FirstWordsOfText();
    SecondWordsOfText();
    Md5Compresses();
    Md5Works(MD5_OPERATIONS);
    TextAbsorbed(WorkIn(MD5_OPERATIONS), Compressing(MD5_OPERATIONS), PaddedText());
    StateEncoded();
  }
}
