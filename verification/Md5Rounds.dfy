/** The compression function of MD5 as a table-driven loop, after section 3.4 of RFC 1321. */
module Md5Rounds {
  import opened Bytes

  /** The state between blocks. */
  datatype Registers = Registers(a: u32, b: u32, c: u32, d: u32)

  /** The four registers while a block is worked in, as machine words: `+` on them wraps round. */
  datatype Words<W> = Words(a: W, b: W, c: W, d: W)

  type shift = s: bv32 | 0 < s < 32 witness 7

  /** The four auxiliary functions, and how a step puts its terms together. The order of the steps, and
      so everything proved about it, does not depend on what they are. */
  datatype Operations<!W> = Operations(
    f: (W, W, W) -> W,
    g: (W, W, W) -> W,
    h: (W, W, W) -> W,
    i: (W, W, W) -> W,
    combine: (W, W, W, shift, bv32, W) -> W)

  const MD5_OPERATIONS: Operations<bv32> := Operations(F, G, H, I, Combine)

  function F(x: bv32, y: bv32, z: bv32): bv32 {
    (x & y) | (!x & z)
  }

  function G(x: bv32, y: bv32, z: bv32): bv32 {
    (x & z) | (y & !z)
  }

  function H(x: bv32, y: bv32, z: bv32): bv32 {
    x ^ y ^ z
  }

  function I(x: bv32, y: bv32, z: bv32): bv32 {
    y ^ (x | !z)
  }

  function Rotated(x: bv32, n: shift): bv32 {
    (x << n) | (x >> (32 - n))
  }

  function Combine(a: bv32, auxiliary: bv32, x: bv32, s: shift, ac: bv32, b: bv32): bv32 {
    Rotated(a + auxiliary + x + ac, s) + b
  }

  /** Where x is set F is y, elsewhere z. */
  lemma FSelects(x: bv32, y: bv32, z: bv32)
    ensures MD5_OPERATIONS.f(x, y, z) & x == y & x && MD5_OPERATIONS.f(x, y, z) & !x == z & !x
  {
  }

  /** Where z is set G is x, elsewhere y. */
  lemma GSelects(x: bv32, y: bv32, z: bv32)
    ensures MD5_OPERATIONS.g(x, y, z) & z == x & z && MD5_OPERATIONS.g(x, y, z) & !z == y & !z
  {
  }

  /** H is z, turned where x and y differ. */
  lemma HTurns(x: bv32, y: bv32, z: bv32)
    ensures MD5_OPERATIONS.h(x, y, z) & (x ^ y) == !z & (x ^ y)
    ensures MD5_OPERATIONS.h(x, y, z) & !(x ^ y) == z & !(x ^ y)
  {
  }

  /** I is y, turned where x is set or z is not. */
  lemma ITurns(x: bv32, y: bv32, z: bv32)
    ensures MD5_OPERATIONS.i(x, y, z) & (x | !z) == !y & (x | !z)
    ensures MD5_OPERATIONS.i(x, y, z) & (!x & z) == y & (!x & z)
  {
  }

  /** `turned` is `x` rotated left by `n`: it ends in the top bits of `x`, and the others come before them. */
  ghost predicate IsRotation(turned: bv32, x: bv32, n: shift) {
    turned >> n == x & (0xFFFF_FFFF >> n) && turned << (32 - n) == x & (0xFFFF_FFFF << (32 - n))
  }

  /** The two shifts make a rotation: what the first pushes out at the top the second puts at the bottom. */
  lemma RotatedKeepsAll(x: bv32, n: shift)
    ensures IsRotation(Rotated(x, n), x, n)
  {
  }

  /** A step adds the rotated sum of the other four terms to `b`. */
  lemma CombineRotatesSum(a: bv32, q: bv32, x: bv32, s: shift, ac: bv32, b: bv32)
    ensures MD5_OPERATIONS.combine(a, q, x, s, ac, b) == Rotated(a + q + x + ac, s) + b
  {
  }

  function Add(x: u32, y: u32): u32 {
    (x + y) % 0x1_0000_0000
  }

  /** The auxiliary function of a round. */
  function Auxiliary<W>(o: Operations<W>, round: nat, b: W, c: W, d: W): W {
    if round == 0 then o.f(b, c, d) else if round == 1 then o.g(b, c, d)
    else if round == 2 then o.h(b, c, d) else o.i(b, c, d)
  }

  /** Which word of the block step `i` of a round reads. */
  function WordIndex(round: nat, i: nat): (k: nat)
    ensures k < 16
  {
    if round == 0 then i % 16 else if round == 1 then (5 * i + 1) % 16
    else if round == 2 then (3 * i + 5) % 16 else 7 * i % 16
  }

  /** How far step `i` of a round rotates. */
  function Shift(round: nat, i: nat): shift
  {
    if round == 0 then Cycle(i, 7, 12, 17, 22)
    else if round == 1 then Cycle(i, 5, 9, 14, 20)
    else if round == 2 then Cycle(i, 4, 11, 16, 23)
    else Cycle(i, 6, 10, 15, 21)
  }

  function Cycle(i: nat, s0: shift, s1: shift, s2: shift, s3: shift): shift {
    if i % 4 == 0 then s0 else if i % 4 == 1 then s1 else if i % 4 == 2 then s2 else s3
  }

  /** The sine table for round 0. */
  function Sine0(i: nat): bv32 {
    match i
    case 0 => 0xd76aa478
    case 1 => 0xe8c7b756
    case 2 => 0x242070db
    case 3 => 0xc1bdceee
    case 4 => 0xf57c0faf
    case 5 => 0x4787c62a
    case 6 => 0xa8304613
    case 7 => 0xfd469501
    case 8 => 0x698098d8
    case 9 => 0x8b44f7af
    case 10 => 0xffff5bb1
    case 11 => 0x895cd7be
    case 12 => 0x6b901122
    case 13 => 0xfd987193
    case 14 => 0xa679438e
    case _ => 0x49b40821
  }

  /** The sine table for round 1. */
  function Sine1(i: nat): bv32 {
    match i
    case 0 => 0xf61e2562
    case 1 => 0xc040b340
    case 2 => 0x265e5a51
    case 3 => 0xe9b6c7aa
    case 4 => 0xd62f105d
    case 5 => 0x02441453
    case 6 => 0xd8a1e681
    case 7 => 0xe7d3fbc8
    case 8 => 0x21e1cde6
    case 9 => 0xc33707d6
    case 10 => 0xf4d50d87
    case 11 => 0x455a14ed
    case 12 => 0xa9e3e905
    case 13 => 0xfcefa3f8
    case 14 => 0x676f02d9
    case _ => 0x8d2a4c8a
  }

  /** The sine table for round 2. */
  function Sine2(i: nat): bv32 {
    match i
    case 0 => 0xfffa3942
    case 1 => 0x8771f681
    case 2 => 0x6d9d6122
    case 3 => 0xfde5380c
    case 4 => 0xa4beea44
    case 5 => 0x4bdecfa9
    case 6 => 0xf6bb4b60
    case 7 => 0xbebfbc70
    case 8 => 0x289b7ec6
    case 9 => 0xeaa127fa
    case 10 => 0xd4ef3085
    case 11 => 0x04881d05
    case 12 => 0xd9d4d039
    case 13 => 0xe6db99e5
    case 14 => 0x1fa27cf8
    case _ => 0xc4ac5665
  }

  /** The sine table for round 3. */
  function Sine3(i: nat): bv32 {
    match i
    case 0 => 0xf4292244
    case 1 => 0x432aff97
    case 2 => 0xab9423a7
    case 3 => 0xfc93a039
    case 4 => 0x655b59c3
    case 5 => 0x8f0ccc92
    case 6 => 0xffeff47d
    case 7 => 0x85845dd1
    case 8 => 0x6fa87e4f
    case 9 => 0xfe2ce6e0
    case 10 => 0xa3014314
    case 11 => 0x4e0811a1
    case 12 => 0xf7537e82
    case 13 => 0xbd3af235
    case 14 => 0x2ad7d2bb
    case _ => 0xeb86d391
  }

  /** The table of section 3.4: 2 to the 32 times the sines of 1 to 64, without sign and rounded down. */
  function Sine(round: nat, i: nat): bv32 {
    if round == 0 then Sine0(i) else if round == 1 then Sine1(i) else if round == 2 then Sine2(i) else Sine3(i)
  }

  /** Step `i` of a round: one register is replaced and the four change places. */
  function Step<W>(o: Operations<W>, round: nat, i: nat, r: Words<W>, x: seq<W>): Words<W>
    requires |x| == 16
  {
    var aux := Auxiliary(o, round, r.b, r.c, r.d);
    Words(r.d, o.combine(r.a, aux, x[WordIndex(round, i)], Shift(round, i), Sine(round, i), r.b), r.b, r.c)
  }

  /** The first `n` steps of a round. */
  function Steps<W>(o: Operations<W>, round: nat, n: nat, r: Words<W>, x: seq<W>): Words<W>
    requires |x| == 16
  {
    if n == 0 then r else Step(o, round, n - 1, Steps(o, round, n - 1, r, x), x)
  }

  function Rounds<W>(o: Operations<W>, r: Words<W>, x: seq<W>): Words<W>
    requires |x| == 16
  {
    Steps(o, 3, 16, Steps(o, 2, 16, Steps(o, 1, 16, Steps(o, 0, 16, r, x), x), x), x)
  }

  /** The words of a block, and the state, as the rounds take them. */
  function Machine(x: seq<u32>): (words: seq<bv32>)
    ensures |words| == |x|
  {
    seq(|x|, k requires 0 <= k < |x| => x[k] as bv32)
  }

  function Loaded(state: Registers): Words<bv32> {
    Words(state.a as bv32, state.b as bv32, state.c as bv32, state.d as bv32)
  }

  function Sum(state: Registers, r: Words<bv32>): Registers {
    Registers(Add(state.a, r.a as int), Add(state.b, r.b as int), Add(state.c, r.c as int), Add(state.d, r.d as int))
  }

  /** A block of sixteen words is worked in: the registers after the rounds are added to the state. */
  function Compress(o: Operations<bv32>, state: Registers, x: seq<u32>): Registers
    requires |x| == 16
  {
    Sum(state, Rounds(o, Loaded(state), Machine(x)))
  }
}

/** The sixty-four steps written out, as md5.cpp has them. */
module Md5Unrolled {
  import opened Md5Rounds

  function FF<W>(o: Operations<W>, a: W, b: W, c: W, d: W, x: W, s: shift, ac: bv32): W {
    o.combine(a, o.f(b, c, d), x, s, ac, b)
  }

  function GG<W>(o: Operations<W>, a: W, b: W, c: W, d: W, x: W, s: shift, ac: bv32): W {
    o.combine(a, o.g(b, c, d), x, s, ac, b)
  }

  function HH<W>(o: Operations<W>, a: W, b: W, c: W, d: W, x: W, s: shift, ac: bv32): W {
    o.combine(a, o.h(b, c, d), x, s, ac, b)
  }

  function II<W>(o: Operations<W>, a: W, b: W, c: W, d: W, x: W, s: shift, ac: bv32): W {
    o.combine(a, o.i(b, c, d), x, s, ac, b)
  }

  lemma StepIsFF<W>(o: Operations<W>, i: nat, r: Words<W>, x: seq<W>, q: Words<W>)
    requires i < 16 && |x| == 16 && q == Steps(o, 0, i, r, x)
    ensures Words(q.d, FF(o, q.a, q.b, q.c, q.d, x[i], Shift(0, i), Sine(0, i)), q.b, q.c)
            == Steps(o, 0, i + 1, r, x)
  {
    assert WordIndex(0, i) == i;
    assert Steps(o, 0, i + 1, r, x) == Step(o, 0, i, q, x);
  }

  /** `k` is what is left of `n` after taking 16 away some times. */
  predicate Wraps(n: nat, k: nat) {
    n == k || n == k + 16 || n == k + 32 || n == k + 48 || n == k + 64 || n == k + 80 || n == k + 96
  }

  lemma WrapsToRemainder(n: nat, k: nat)
    requires k < 16 && Wraps(n, k)
    ensures n % 16 == k
  {
  }

  lemma StepIsGG<W>(o: Operations<W>, i: nat, k: nat, r: Words<W>, x: seq<W>, q: Words<W>)
    requires i < 16 && k < 16 && Wraps(5 * i + 1, k) && |x| == 16 && q == Steps(o, 1, i, r, x)
    ensures Words(q.d, GG(o, q.a, q.b, q.c, q.d, x[k], Shift(1, i), Sine(1, i)), q.b, q.c)
            == Steps(o, 1, i + 1, r, x)
  {
    WrapsToRemainder(5 * i + 1, k);
    assert WordIndex(1, i) == k;
    assert Steps(o, 1, i + 1, r, x) == Step(o, 1, i, q, x);
  }

  lemma StepIsHH<W>(o: Operations<W>, i: nat, k: nat, r: Words<W>, x: seq<W>, q: Words<W>)
    requires i < 16 && k < 16 && Wraps(3 * i + 5, k) && |x| == 16 && q == Steps(o, 2, i, r, x)
    ensures Words(q.d, HH(o, q.a, q.b, q.c, q.d, x[k], Shift(2, i), Sine(2, i)), q.b, q.c)
            == Steps(o, 2, i + 1, r, x)
  {
    WrapsToRemainder(3 * i + 5, k);
    assert WordIndex(2, i) == k;
    assert Steps(o, 2, i + 1, r, x) == Step(o, 2, i, q, x);
  }

  lemma StepIsII<W>(o: Operations<W>, i: nat, k: nat, r: Words<W>, x: seq<W>, q: Words<W>)
    requires i < 16 && k < 16 && Wraps(7 * i, k) && |x| == 16 && q == Steps(o, 3, i, r, x)
    ensures Words(q.d, II(o, q.a, q.b, q.c, q.d, x[k], Shift(3, i), Sine(3, i)), q.b, q.c)
            == Steps(o, 3, i + 1, r, x)
  {
    WrapsToRemainder(7 * i, k);
    assert WordIndex(3, i) == k;
    assert Steps(o, 3, i + 1, r, x) == Step(o, 3, i, q, x);
  }

  method RoundOne<W>(o: Operations<W>, r: Words<W>, x: seq<W>) returns (q: Words<W>)
    requires |x| == 16
    ensures q == Steps(o, 0, 16, r, x)
  {
    var a, b, c, d := r.a, r.b, r.c, r.d;
    StepIsFF(o, 0, r, x, Words(a, b, c, d));
    a := FF(o, a, b, c, d, x[0], 7, 0xd76aa478);
    StepIsFF(o, 1, r, x, Words(d, a, b, c));
    d := FF(o, d, a, b, c, x[1], 12, 0xe8c7b756);
    StepIsFF(o, 2, r, x, Words(c, d, a, b));
    c := FF(o, c, d, a, b, x[2], 17, 0x242070db);
    StepIsFF(o, 3, r, x, Words(b, c, d, a));
    b := FF(o, b, c, d, a, x[3], 22, 0xc1bdceee);
    StepIsFF(o, 4, r, x, Words(a, b, c, d));
    a := FF(o, a, b, c, d, x[4], 7, 0xf57c0faf);
    StepIsFF(o, 5, r, x, Words(d, a, b, c));
    d := FF(o, d, a, b, c, x[5], 12, 0x4787c62a);
    StepIsFF(o, 6, r, x, Words(c, d, a, b));
    c := FF(o, c, d, a, b, x[6], 17, 0xa8304613);
    StepIsFF(o, 7, r, x, Words(b, c, d, a));
    b := FF(o, b, c, d, a, x[7], 22, 0xfd469501);
    StepIsFF(o, 8, r, x, Words(a, b, c, d));
    a := FF(o, a, b, c, d, x[8], 7, 0x698098d8);
    StepIsFF(o, 9, r, x, Words(d, a, b, c));
    d := FF(o, d, a, b, c, x[9], 12, 0x8b44f7af);
    StepIsFF(o, 10, r, x, Words(c, d, a, b));
    c := FF(o, c, d, a, b, x[10], 17, 0xffff5bb1);
    StepIsFF(o, 11, r, x, Words(b, c, d, a));
    b := FF(o, b, c, d, a, x[11], 22, 0x895cd7be);
    StepIsFF(o, 12, r, x, Words(a, b, c, d));
    a := FF(o, a, b, c, d, x[12], 7, 0x6b901122);
    StepIsFF(o, 13, r, x, Words(d, a, b, c));
    d := FF(o, d, a, b, c, x[13], 12, 0xfd987193);
    StepIsFF(o, 14, r, x, Words(c, d, a, b));
    c := FF(o, c, d, a, b, x[14], 17, 0xa679438e);
    StepIsFF(o, 15, r, x, Words(b, c, d, a));
    b := FF(o, b, c, d, a, x[15], 22, 0x49b40821);
    q := Words(a, b, c, d);
  }

  method RoundTwo<W>(o: Operations<W>, r: Words<W>, x: seq<W>) returns (q: Words<W>)
    requires |x| == 16
    ensures q == Steps(o, 1, 16, r, x)
  {
    var a, b, c, d := r.a, r.b, r.c, r.d;
    StepIsGG(o, 0, 1, r, x, Words(a, b, c, d));
    a := GG(o, a, b, c, d, x[1], 5, 0xf61e2562);
    StepIsGG(o, 1, 6, r, x, Words(d, a, b, c));
    d := GG(o, d, a, b, c, x[6], 9, 0xc040b340);
    StepIsGG(o, 2, 11, r, x, Words(c, d, a, b));
    c := GG(o, c, d, a, b, x[11], 14, 0x265e5a51);
    StepIsGG(o, 3, 0, r, x, Words(b, c, d, a));
    b := GG(o, b, c, d, a, x[0], 20, 0xe9b6c7aa);
    StepIsGG(o, 4, 5, r, x, Words(a, b, c, d));
    a := GG(o, a, b, c, d, x[5], 5, 0xd62f105d);
    StepIsGG(o, 5, 10, r, x, Words(d, a, b, c));
    d := GG(o, d, a, b, c, x[10], 9, 0x2441453);
    StepIsGG(o, 6, 15, r, x, Words(c, d, a, b));
    c := GG(o, c, d, a, b, x[15], 14, 0xd8a1e681);
    StepIsGG(o, 7, 4, r, x, Words(b, c, d, a));
    b := GG(o, b, c, d, a, x[4], 20, 0xe7d3fbc8);
    StepIsGG(o, 8, 9, r, x, Words(a, b, c, d));
    a := GG(o, a, b, c, d, x[9], 5, 0x21e1cde6);
    StepIsGG(o, 9, 14, r, x, Words(d, a, b, c));
    d := GG(o, d, a, b, c, x[14], 9, 0xc33707d6);
    StepIsGG(o, 10, 3, r, x, Words(c, d, a, b));
    c := GG(o, c, d, a, b, x[3], 14, 0xf4d50d87);
    StepIsGG(o, 11, 8, r, x, Words(b, c, d, a));
    b := GG(o, b, c, d, a, x[8], 20, 0x455a14ed);
    StepIsGG(o, 12, 13, r, x, Words(a, b, c, d));
    a := GG(o, a, b, c, d, x[13], 5, 0xa9e3e905);
    StepIsGG(o, 13, 2, r, x, Words(d, a, b, c));
    d := GG(o, d, a, b, c, x[2], 9, 0xfcefa3f8);
    StepIsGG(o, 14, 7, r, x, Words(c, d, a, b));
    c := GG(o, c, d, a, b, x[7], 14, 0x676f02d9);
    StepIsGG(o, 15, 12, r, x, Words(b, c, d, a));
    b := GG(o, b, c, d, a, x[12], 20, 0x8d2a4c8a);
    q := Words(a, b, c, d);
  }

  method RoundThree<W>(o: Operations<W>, r: Words<W>, x: seq<W>) returns (q: Words<W>)
    requires |x| == 16
    ensures q == Steps(o, 2, 16, r, x)
  {
    var a, b, c, d := r.a, r.b, r.c, r.d;
    StepIsHH(o, 0, 5, r, x, Words(a, b, c, d));
    a := HH(o, a, b, c, d, x[5], 4, 0xfffa3942);
    StepIsHH(o, 1, 8, r, x, Words(d, a, b, c));
    d := HH(o, d, a, b, c, x[8], 11, 0x8771f681);
    StepIsHH(o, 2, 11, r, x, Words(c, d, a, b));
    c := HH(o, c, d, a, b, x[11], 16, 0x6d9d6122);
    StepIsHH(o, 3, 14, r, x, Words(b, c, d, a));
    b := HH(o, b, c, d, a, x[14], 23, 0xfde5380c);
    StepIsHH(o, 4, 1, r, x, Words(a, b, c, d));
    a := HH(o, a, b, c, d, x[1], 4, 0xa4beea44);
    StepIsHH(o, 5, 4, r, x, Words(d, a, b, c));
    d := HH(o, d, a, b, c, x[4], 11, 0x4bdecfa9);
    StepIsHH(o, 6, 7, r, x, Words(c, d, a, b));
    c := HH(o, c, d, a, b, x[7], 16, 0xf6bb4b60);
    StepIsHH(o, 7, 10, r, x, Words(b, c, d, a));
    b := HH(o, b, c, d, a, x[10], 23, 0xbebfbc70);
    StepIsHH(o, 8, 13, r, x, Words(a, b, c, d));
    a := HH(o, a, b, c, d, x[13], 4, 0x289b7ec6);
    StepIsHH(o, 9, 0, r, x, Words(d, a, b, c));
    d := HH(o, d, a, b, c, x[0], 11, 0xeaa127fa);
    StepIsHH(o, 10, 3, r, x, Words(c, d, a, b));
    c := HH(o, c, d, a, b, x[3], 16, 0xd4ef3085);
    StepIsHH(o, 11, 6, r, x, Words(b, c, d, a));
    b := HH(o, b, c, d, a, x[6], 23, 0x4881d05);
    StepIsHH(o, 12, 9, r, x, Words(a, b, c, d));
    a := HH(o, a, b, c, d, x[9], 4, 0xd9d4d039);
    StepIsHH(o, 13, 12, r, x, Words(d, a, b, c));
    d := HH(o, d, a, b, c, x[12], 11, 0xe6db99e5);
    StepIsHH(o, 14, 15, r, x, Words(c, d, a, b));
    c := HH(o, c, d, a, b, x[15], 16, 0x1fa27cf8);
    StepIsHH(o, 15, 2, r, x, Words(b, c, d, a));
    b := HH(o, b, c, d, a, x[2], 23, 0xc4ac5665);
    q := Words(a, b, c, d);
  }

  method RoundFour<W>(o: Operations<W>, r: Words<W>, x: seq<W>) returns (q: Words<W>)
    requires |x| == 16
    ensures q == Steps(o, 3, 16, r, x)
  {
    var a, b, c, d := r.a, r.b, r.c, r.d;
    StepIsII(o, 0, 0, r, x, Words(a, b, c, d));
    a := II(o, a, b, c, d, x[0], 6, 0xf4292244);
    StepIsII(o, 1, 7, r, x, Words(d, a, b, c));
    d := II(o, d, a, b, c, x[7], 10, 0x432aff97);
    StepIsII(o, 2, 14, r, x, Words(c, d, a, b));
    c := II(o, c, d, a, b, x[14], 15, 0xab9423a7);
    StepIsII(o, 3, 5, r, x, Words(b, c, d, a));
    b := II(o, b, c, d, a, x[5], 21, 0xfc93a039);
    StepIsII(o, 4, 12, r, x, Words(a, b, c, d));
    a := II(o, a, b, c, d, x[12], 6, 0x655b59c3);
    StepIsII(o, 5, 3, r, x, Words(d, a, b, c));
    d := II(o, d, a, b, c, x[3], 10, 0x8f0ccc92);
    StepIsII(o, 6, 10, r, x, Words(c, d, a, b));
    c := II(o, c, d, a, b, x[10], 15, 0xffeff47d);
    StepIsII(o, 7, 1, r, x, Words(b, c, d, a));
    b := II(o, b, c, d, a, x[1], 21, 0x85845dd1);
    StepIsII(o, 8, 8, r, x, Words(a, b, c, d));
    a := II(o, a, b, c, d, x[8], 6, 0x6fa87e4f);
    StepIsII(o, 9, 15, r, x, Words(d, a, b, c));
    d := II(o, d, a, b, c, x[15], 10, 0xfe2ce6e0);
    StepIsII(o, 10, 6, r, x, Words(c, d, a, b));
    c := II(o, c, d, a, b, x[6], 15, 0xa3014314);
    StepIsII(o, 11, 13, r, x, Words(b, c, d, a));
    b := II(o, b, c, d, a, x[13], 21, 0x4e0811a1);
    StepIsII(o, 12, 4, r, x, Words(a, b, c, d));
    a := II(o, a, b, c, d, x[4], 6, 0xf7537e82);
    StepIsII(o, 13, 11, r, x, Words(d, a, b, c));
    d := II(o, d, a, b, c, x[11], 10, 0xbd3af235);
    StepIsII(o, 14, 2, r, x, Words(c, d, a, b));
    c := II(o, c, d, a, b, x[2], 15, 0x2ad7d2bb);
    StepIsII(o, 15, 9, r, x, Words(b, c, d, a));
    b := II(o, b, c, d, a, x[9], 21, 0xeb86d391);
    q := Words(a, b, c, d);
  }

  method AllRounds<W>(o: Operations<W>, r: Words<W>, x: seq<W>) returns (q: Words<W>)
    requires |x| == 16
    ensures q == Rounds(o, r, x)
  {
    q := RoundOne(o, r, x);
    q := RoundTwo(o, q, x);
    q := RoundThree(o, q, x);
    q := RoundFour(o, q, x);
  }
}
