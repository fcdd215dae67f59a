/**
 The block function of MD5 (md5.c, `body`) against the description in section 3.4 of RFC 1321.
 */
module Md5Block {
  import opened Word32

  type Byte = bv8
  /** A 32-bit word. */
  datatype Word = W(bits: bv32)

  datatype State = State(a: Word, b: Word, c: Word, d: Word)

  // ---------------------------------------------------------------------------------------
  // RFC 1321, section 3.4

  function RfcF(x: bv32, y: bv32, z: bv32): bv32 {
    (x & y) | (!x & z)
  }

  function RfcG(x: bv32, y: bv32, z: bv32): bv32 {
    (x & z) | (y & !z)
  }

  function RfcH(x: bv32, y: bv32, z: bv32): bv32 {
    x ^ y ^ z
  }

  function RfcI(x: bv32, y: bv32, z: bv32): bv32 {
    y ^ (x | !z)
  }

  /** The table T, one row per round. */
  const T1: seq<Word> := [
    W(0xd76aa478), W(0xe8c7b756), W(0x242070db), W(0xc1bdceee),
    W(0xf57c0faf), W(0x4787c62a), W(0xa8304613), W(0xfd469501),
    W(0x698098d8), W(0x8b44f7af), W(0xffff5bb1), W(0x895cd7be),
    W(0x6b901122), W(0xfd987193), W(0xa679438e), W(0x49b40821)]
  const T2: seq<Word> := [
    W(0xf61e2562), W(0xc040b340), W(0x265e5a51), W(0xe9b6c7aa),
    W(0xd62f105d), W(0x02441453), W(0xd8a1e681), W(0xe7d3fbc8),
    W(0x21e1cde6), W(0xc33707d6), W(0xf4d50d87), W(0x455a14ed),
    W(0xa9e3e905), W(0xfcefa3f8), W(0x676f02d9), W(0x8d2a4c8a)]
  const T3: seq<Word> := [
    W(0xfffa3942), W(0x8771f681), W(0x6d9d6122), W(0xfde5380c),
    W(0xa4beea44), W(0x4bdecfa9), W(0xf6bb4b60), W(0xbebfbc70),
    W(0x289b7ec6), W(0xeaa127fa), W(0xd4ef3085), W(0x04881d05),
    W(0xd9d4d039), W(0xe6db99e5), W(0x1fa27cf8), W(0xc4ac5665)]
  const T4: seq<Word> := [
    W(0xf4292244), W(0x432aff97), W(0xab9423a7), W(0xfc93a039),
    W(0x655b59c3), W(0x8f0ccc92), W(0xffeff47d), W(0x85845dd1),
    W(0x6fa87e4f), W(0xfe2ce6e0), W(0xa3014314), W(0x4e0811a1),
    W(0xf7537e82), W(0xbd3af235), W(0x2ad7d2bb), W(0xeb86d391)]

  function T(i: nat): Word
    requires i < 64
  {
    if i < 16 then T1[i] else if i < 32 then T2[i - 16] else if i < 48 then T3[i - 32] else T4[i - 48]
  }

  function Mix(i: nat, x: Word, y: Word, z: Word): Word {
    if i < 16 then W(RfcF(x.bits, y.bits, z.bits))
    else if i < 32 then W(RfcG(x.bits, y.bits, z.bits))
    else if i < 48 then W(RfcH(x.bits, y.bits, z.bits))
    else W(RfcI(x.bits, y.bits, z.bits))
  }

  /** Which word of the block an operation takes. */
  function Index(i: nat): nat {
    if i < 16 then i else if i < 32 then (5 * i + 1) % 16 else if i < 48 then (3 * i + 5) % 16 else 7 * i % 16
  }

  function Shift(i: nat): nat {
    var k := i % 4;
    if i < 16 then (if k == 0 then 7 else if k == 1 then 12 else if k == 2 then 17 else 22)
    else if i < 32 then (if k == 0 then 5 else if k == 1 then 9 else if k == 2 then 14 else 20)
    else if i < 48 then (if k == 0 then 4 else if k == 1 then 11 else if k == 2 then 16 else 23)
    else (if k == 0 then 6 else if k == 1 then 10 else if k == 2 then 15 else 21)
  }

  /** The rotation X <<< s, by the amounts that occur. */
  function Rotated(w: Word, s: nat): Word {
    match s
    case 4 => W(w.bits.RotateLeft(4))
    case 5 => W(w.bits.RotateLeft(5))
    case 6 => W(w.bits.RotateLeft(6))
    case 7 => W(w.bits.RotateLeft(7))
    case 9 => W(w.bits.RotateLeft(9))
    case 10 => W(w.bits.RotateLeft(10))
    case 11 => W(w.bits.RotateLeft(11))
    case 12 => W(w.bits.RotateLeft(12))
    case 14 => W(w.bits.RotateLeft(14))
    case 15 => W(w.bits.RotateLeft(15))
    case 16 => W(w.bits.RotateLeft(16))
    case 17 => W(w.bits.RotateLeft(17))
    case 20 => W(w.bits.RotateLeft(20))
    case 21 => W(w.bits.RotateLeft(21))
    case 22 => W(w.bits.RotateLeft(22))
    case 23 => W(w.bits.RotateLeft(23))
    case _ => w
  }

  function Add(x: Word, y: Word): Word {
    W(Total(x.bits, y.bits))
  }

  function Sum(a: Word, f: Word, x: Word, t: Word): Word {
    Add(a, Add(Add(f, x), t))
  }

  function Turned(b: Word, sum: Word, s: nat): Word {
    Add(b, Rotated(sum, s))
  }

  /** Operation i: a = b + ((a + mix(b, c, d) + X[k] + T[i]) <<< s), after which the words change places. */
  function Operation(x: seq<Word>, i: nat, s: State): State
    requires |x| == 16 && i < 64
  {
    State(s.d, Turned(s.b, Sum(s.a, Mix(i, s.b, s.c, s.d), x[Index(i)], T(i)), Shift(i)), s.b, s.c)
  }

  /** The first n of the 64 operations. */
  function Operations(x: seq<Word>, n: nat, s: State): State
    requires |x| == 16 && n <= 64
  {
    if n == 0 then s else Operation(x, n - 1, Operations(x, n - 1, s))
  }

  function Plus(s: State, t: State): State {
    State(Add(s.a, t.a), Add(s.b, t.b), Add(s.c, t.c), Add(s.d, t.d))
  }

  /** A word of a block, the low-order byte first. */
  function Load(block: seq<Byte>, k: nat): Word
    requires 4 * k + 4 <= |block|
  {
    var i := 4 * k;
    W(Four(block[i], block[i + 1], block[i + 2], block[i + 3]))
  }

  function Words(block: seq<Byte>): (x: seq<Word>)
    requires |block| == 64
    ensures |x| == 16
  {
    seq(16, k requires 0 <= k < 16 => Load(block, k))
  }

  /** What one block does to the state. */
  function Compress(s: State, block: seq<Byte>): State
    requires |block| == 64
  {
    Plus(Operations(Words(block), 64, s), s)
  }

  /** The sum of words is that of the numbers, modulo 2^32. */
  lemma AddValue(x: Word, y: Word)
    ensures Number(Add(x, y).bits) == (Number(x.bits) + Number(y.bits)) % 0x1_0000_0000
  {
    hide Total, Number;
    TotalModulo(x.bits, y.bits);
  }

  /** The number that word k of a block stands for. */
  lemma LoadValue(block: seq<Byte>, k: nat)
    requires 4 * k + 4 <= |block|
    ensures
      var i := 4 * k;
      Load(block, k).bits as nat ==
        block[i] as nat + 0x100 * block[i + 1] as nat + 0x1_0000 * block[i + 2] as nat
        + 0x100_0000 * block[i + 3] as nat
  {
    var i := 4 * k;
    hide Four;
    FourNumber(block[i], block[i + 1], block[i + 2], block[i + 3]);
  }

  // ---------------------------------------------------------------------------------------
  // The macros

  function F(x: bv32, y: bv32, z: bv32): bv32 {
    z ^ (x & (y ^ z))
  }

  function G(x: bv32, y: bv32, z: bv32): bv32 {
    y ^ (z & (x ^ y))
  }

  function H(x: bv32, y: bv32, z: bv32): bv32 {
    (x ^ y) ^ z
  }

  function H2(x: bv32, y: bv32, z: bv32): bv32 {
    x ^ (y ^ z)
  }

  function I(x: bv32, y: bv32, z: bv32): bv32 {
    y ^ (x | !z)
  }

  /** The functions as the program writes them, with fewer operations, are those of the RFC. */
  lemma FIsRfc(x: bv32, y: bv32, z: bv32)
    ensures F(x, y, z) == RfcF(x, y, z)
  {
    Selects(x, y, z);
  }

  lemma GIsRfc(x: bv32, y: bv32, z: bv32)
    ensures G(x, y, z) == RfcG(x, y, z)
  {
    Selects(z, x, y);
  }

  /** Bit by bit, both sides choose y where x is set and z where it is not. */
  lemma Selects(x: bv32, y: bv32, z: bv32)
    ensures z ^ (x & (y ^ z)) == (x & y) | (!x & z) == (y & x) | (z & !x)
  {
  }

  lemma HIsRfc(x: bv32, y: bv32, z: bv32)
    ensures H(x, y, z) == H2(x, y, z) == RfcH(x, y, z)
  {
  }

  /** `(w << s) | ((w & 0xffffffff) >> (32 - s))`, by the amounts that occur. */
  function TwoShifts(w: Word, s: nat): Word {
    match s
    case 4 => W((w.bits << 4) | ((w.bits & 0xffffffff) >> 28))
    case 5 => W((w.bits << 5) | ((w.bits & 0xffffffff) >> 27))
    case 6 => W((w.bits << 6) | ((w.bits & 0xffffffff) >> 26))
    case 7 => W((w.bits << 7) | ((w.bits & 0xffffffff) >> 25))
    case 9 => W((w.bits << 9) | ((w.bits & 0xffffffff) >> 23))
    case 10 => W((w.bits << 10) | ((w.bits & 0xffffffff) >> 22))
    case 11 => W((w.bits << 11) | ((w.bits & 0xffffffff) >> 21))
    case 12 => W((w.bits << 12) | ((w.bits & 0xffffffff) >> 20))
    case 14 => W((w.bits << 14) | ((w.bits & 0xffffffff) >> 18))
    case 15 => W((w.bits << 15) | ((w.bits & 0xffffffff) >> 17))
    case 16 => W((w.bits << 16) | ((w.bits & 0xffffffff) >> 16))
    case 17 => W((w.bits << 17) | ((w.bits & 0xffffffff) >> 15))
    case 20 => W((w.bits << 20) | ((w.bits & 0xffffffff) >> 12))
    case 21 => W((w.bits << 21) | ((w.bits & 0xffffffff) >> 11))
    case 22 => W((w.bits << 22) | ((w.bits & 0xffffffff) >> 10))
    case 23 => W((w.bits << 23) | ((w.bits & 0xffffffff) >> 9))
    case _ => w
  }

  /** The two shifts of the macro are a rotation. */
  lemma ShiftsRotate(w: Word, s: nat)
    ensures TwoShifts(w, s) == Rotated(w, s)
  {
    ShiftsRotate1(w.bits);
    ShiftsRotate2(w.bits);
    ShiftsRotate3(w.bits);
    ShiftsRotate4(w.bits);
  }

  lemma ShiftsRotate1(w: bv32)
    ensures ((w << 7) | ((w & 0xffffffff) >> 25)) == w.RotateLeft(7)
    ensures ((w << 12) | ((w & 0xffffffff) >> 20)) == w.RotateLeft(12)
    ensures ((w << 17) | ((w & 0xffffffff) >> 15)) == w.RotateLeft(17)
    ensures ((w << 22) | ((w & 0xffffffff) >> 10)) == w.RotateLeft(22)
  {
  }

  lemma ShiftsRotate2(w: bv32)
    ensures ((w << 5) | ((w & 0xffffffff) >> 27)) == w.RotateLeft(5)
    ensures ((w << 9) | ((w & 0xffffffff) >> 23)) == w.RotateLeft(9)
    ensures ((w << 14) | ((w & 0xffffffff) >> 18)) == w.RotateLeft(14)
    ensures ((w << 20) | ((w & 0xffffffff) >> 12)) == w.RotateLeft(20)
  {
  }

  lemma ShiftsRotate3(w: bv32)
    ensures ((w << 4) | ((w & 0xffffffff) >> 28)) == w.RotateLeft(4)
    ensures ((w << 11) | ((w & 0xffffffff) >> 21)) == w.RotateLeft(11)
    ensures ((w << 16) | ((w & 0xffffffff) >> 16)) == w.RotateLeft(16)
    ensures ((w << 23) | ((w & 0xffffffff) >> 9)) == w.RotateLeft(23)
  {
  }

  lemma ShiftsRotate4(w: bv32)
    ensures ((w << 6) | ((w & 0xffffffff) >> 26)) == w.RotateLeft(6)
    ensures ((w << 10) | ((w & 0xffffffff) >> 22)) == w.RotateLeft(10)
    ensures ((w << 15) | ((w & 0xffffffff) >> 17)) == w.RotateLeft(15)
    ensures ((w << 21) | ((w & 0xffffffff) >> 11)) == w.RotateLeft(21)
  {
  }

  lemma AddCommutes(x: Word, y: Word)
    ensures Add(x, y) == Add(y, x)
  {
    TotalCommutes(x.bits, y.bits);
    hide Total;
  }

  /** The statements of the macro STEP, with `f` the value of the function it is given. */
  method Step(f: Word, a0: Word, b: Word, x: Word, t: Word, s: nat) returns (a: Word)
    ensures a == Turned(b, Sum(a0, f, x, t), s)
  {
    hide Add, TwoShifts, Rotated;
    a := Add(a0, Add(Add(f, x), t));
    ShiftsRotate(a, s);
    a := TwoShifts(a, s);
    AddCommutes(a, b);
    a := Add(a, b);
  }

  /** After n operations the state is (a, b, c, d), the names standing where the rotation has brought them. */
  ghost predicate At(x: seq<Word>, n: nat, start: State, a: Word, b: Word, c: Word, d: Word) {
    |x| == 16 && n <= 64 && Operations(x, n, start) == State(a, b, c, d)
  }

  /** A row of the tables in RFC 1321, section 3.4: operation n takes word k, the constant t and the shift s. */
  ghost predicate Row(n: nat, k: nat, t: Word, s: nat) {
    n < 64 && k == Index(n) < 16 && t == T(n) && s == Shift(n)
  }

  /** A step of the program is an operation of the RFC. */
  lemma StepIsOperation(x: seq<Word>, n: nat, start: State, a: Word, b: Word, c: Word, d: Word, f: Word, k: nat,
                        t: Word, s: nat, after: Word)
    requires At(x, n, start, a, b, c, d) && Row(n, k, t, s)
    requires f == Mix(n, b, c, d) && after == Turned(b, Sum(a, f, x[k], t), s)
    ensures At(x, n + 1, start, d, after, b, c)
  {
    hide Mix, Index, T, Shift, Turned, Sum;
  }

  method StepF(ghost start: State, ghost n: nat, a0: Word, b: Word, c: Word, d: Word, x: seq<Word>, k: nat, t: Word,
               s: nat) returns (a: Word)
    requires 0 <= n < 16 && Row(n, k, t, s) && At(x, n, start, a0, b, c, d)
    ensures At(x, n + 1, start, d, a, b, c)
  {
    FIsRfc(b.bits, c.bits, d.bits);
    hide RfcF, RfcG, RfcH, F, G, H, H2, Index, T, Shift, Sum, Turned, Operations;
    var f := W(F(b.bits, c.bits, d.bits));
    a := Step(f, a0, b, x[k], t, s);
    StepIsOperation(x, n, start, a0, b, c, d, f, k, t, s, a);
  }

  method StepG(ghost start: State, ghost n: nat, a0: Word, b: Word, c: Word, d: Word, x: seq<Word>, k: nat, t: Word,
               s: nat) returns (a: Word)
    requires 16 <= n < 32 && Row(n, k, t, s) && At(x, n, start, a0, b, c, d)
    ensures At(x, n + 1, start, d, a, b, c)
  {
    GIsRfc(b.bits, c.bits, d.bits);
    hide RfcF, RfcG, RfcH, F, G, H, H2, Index, T, Shift, Sum, Turned, Operations;
    var f := W(G(b.bits, c.bits, d.bits));
    a := Step(f, a0, b, x[k], t, s);
    StepIsOperation(x, n, start, a0, b, c, d, f, k, t, s, a);
  }

  method StepH(ghost start: State, ghost n: nat, a0: Word, b: Word, c: Word, d: Word, x: seq<Word>, k: nat, t: Word,
               s: nat) returns (a: Word)
    requires 32 <= n < 48 && Row(n, k, t, s) && At(x, n, start, a0, b, c, d)
    ensures At(x, n + 1, start, d, a, b, c)
  {
    HIsRfc(b.bits, c.bits, d.bits);
    hide RfcF, RfcG, RfcH, F, G, H, H2, Index, T, Shift, Sum, Turned, Operations;
    var f := W(H(b.bits, c.bits, d.bits));
    a := Step(f, a0, b, x[k], t, s);
    StepIsOperation(x, n, start, a0, b, c, d, f, k, t, s, a);
  }

  method StepH2(ghost start: State, ghost n: nat, a0: Word, b: Word, c: Word, d: Word, x: seq<Word>, k: nat, t: Word,
                s: nat) returns (a: Word)
    requires 32 <= n < 48 && Row(n, k, t, s) && At(x, n, start, a0, b, c, d)
    ensures At(x, n + 1, start, d, a, b, c)
  {
    HIsRfc(b.bits, c.bits, d.bits);
    hide RfcF, RfcG, RfcH, F, G, H, H2, Index, T, Shift, Sum, Turned, Operations;
    var f := W(H2(b.bits, c.bits, d.bits));
    a := Step(f, a0, b, x[k], t, s);
    StepIsOperation(x, n, start, a0, b, c, d, f, k, t, s, a);
  }

  method StepI(ghost start: State, ghost n: nat, a0: Word, b: Word, c: Word, d: Word, x: seq<Word>, k: nat, t: Word,
               s: nat) returns (a: Word)
    requires 48 <= n < 64 && Row(n, k, t, s) && At(x, n, start, a0, b, c, d)
    ensures At(x, n + 1, start, d, a, b, c)
  {
    hide RfcF, RfcG, RfcH, F, G, H, H2, Index, T, Shift, Sum, Turned, Operations;
    var f := W(I(b.bits, c.bits, d.bits));
    a := Step(f, a0, b, x[k], t, s);
    StepIsOperation(x, n, start, a0, b, c, d, f, k, t, s, a);
  }

  lemma Rows1()
    ensures Row(0, 0, W(0xd76aa478), 7)
    ensures Row(1, 1, W(0xe8c7b756), 12)
    ensures Row(2, 2, W(0x242070db), 17)
    ensures Row(3, 3, W(0xc1bdceee), 22)
    ensures Row(4, 4, W(0xf57c0faf), 7)
    ensures Row(5, 5, W(0x4787c62a), 12)
    ensures Row(6, 6, W(0xa8304613), 17)
    ensures Row(7, 7, W(0xfd469501), 22)
    ensures Row(8, 8, W(0x698098d8), 7)
    ensures Row(9, 9, W(0x8b44f7af), 12)
    ensures Row(10, 10, W(0xffff5bb1), 17)
    ensures Row(11, 11, W(0x895cd7be), 22)
    ensures Row(12, 12, W(0x6b901122), 7)
    ensures Row(13, 13, W(0xfd987193), 12)
    ensures Row(14, 14, W(0xa679438e), 17)
    ensures Row(15, 15, W(0x49b40821), 22)
  {
  }

  lemma Rows2()
    ensures Row(16, 1, W(0xf61e2562), 5)
    ensures Row(17, 6, W(0xc040b340), 9)
    ensures Row(18, 11, W(0x265e5a51), 14)
    ensures Row(19, 0, W(0xe9b6c7aa), 20)
    ensures Row(20, 5, W(0xd62f105d), 5)
    ensures Row(21, 10, W(0x02441453), 9)
    ensures Row(22, 15, W(0xd8a1e681), 14)
    ensures Row(23, 4, W(0xe7d3fbc8), 20)
    ensures Row(24, 9, W(0x21e1cde6), 5)
    ensures Row(25, 14, W(0xc33707d6), 9)
    ensures Row(26, 3, W(0xf4d50d87), 14)
    ensures Row(27, 8, W(0x455a14ed), 20)
    ensures Row(28, 13, W(0xa9e3e905), 5)
    ensures Row(29, 2, W(0xfcefa3f8), 9)
    ensures Row(30, 7, W(0x676f02d9), 14)
    ensures Row(31, 12, W(0x8d2a4c8a), 20)
  {
  }

  lemma Rows3()
    ensures Row(32, 5, W(0xfffa3942), 4)
    ensures Row(33, 8, W(0x8771f681), 11)
    ensures Row(34, 11, W(0x6d9d6122), 16)
    ensures Row(35, 14, W(0xfde5380c), 23)
    ensures Row(36, 1, W(0xa4beea44), 4)
    ensures Row(37, 4, W(0x4bdecfa9), 11)
    ensures Row(38, 7, W(0xf6bb4b60), 16)
    ensures Row(39, 10, W(0xbebfbc70), 23)
    ensures Row(40, 13, W(0x289b7ec6), 4)
    ensures Row(41, 0, W(0xeaa127fa), 11)
    ensures Row(42, 3, W(0xd4ef3085), 16)
    ensures Row(43, 6, W(0x04881d05), 23)
    ensures Row(44, 9, W(0xd9d4d039), 4)
    ensures Row(45, 12, W(0xe6db99e5), 11)
    ensures Row(46, 15, W(0x1fa27cf8), 16)
    ensures Row(47, 2, W(0xc4ac5665), 23)
  {
  }

  lemma Rows4()
    ensures Row(48, 0, W(0xf4292244), 6)
    ensures Row(49, 7, W(0x432aff97), 10)
    ensures Row(50, 14, W(0xab9423a7), 15)
    ensures Row(51, 5, W(0xfc93a039), 21)
    ensures Row(52, 12, W(0x655b59c3), 6)
    ensures Row(53, 3, W(0x8f0ccc92), 10)
    ensures Row(54, 10, W(0xffeff47d), 15)
    ensures Row(55, 1, W(0x85845dd1), 21)
    ensures Row(56, 8, W(0x6fa87e4f), 6)
    ensures Row(57, 15, W(0xfe2ce6e0), 10)
    ensures Row(58, 6, W(0xa3014314), 15)
    ensures Row(59, 13, W(0x4e0811a1), 21)
    ensures Row(60, 4, W(0xf7537e82), 6)
    ensures Row(61, 11, W(0xbd3af235), 10)
    ensures Row(62, 2, W(0x2ad7d2bb), 15)
    ensures Row(63, 9, W(0xeb86d391), 21)
  {
  }

  /** Round 1. */
  method Round1(ghost start: State, x: seq<Word>, a0: Word, b0: Word, c0: Word, d0: Word)
    returns (a: Word, b: Word, c: Word, d: Word)
    requires At(x, 0, start, a0, b0, c0, d0)
    ensures At(x, 16, start, a, b, c, d)
  {
    hide At, Row;
    Rows1();
    a, b, c, d := a0, b0, c0, d0;
    a := StepF(start, 0, a, b, c, d, x, 0, W(0xd76aa478), 7);
    d := StepF(start, 1, d, a, b, c, x, 1, W(0xe8c7b756), 12);
    c := StepF(start, 2, c, d, a, b, x, 2, W(0x242070db), 17);
    b := StepF(start, 3, b, c, d, a, x, 3, W(0xc1bdceee), 22);
    a := StepF(start, 4, a, b, c, d, x, 4, W(0xf57c0faf), 7);
    d := StepF(start, 5, d, a, b, c, x, 5, W(0x4787c62a), 12);
    c := StepF(start, 6, c, d, a, b, x, 6, W(0xa8304613), 17);
    b := StepF(start, 7, b, c, d, a, x, 7, W(0xfd469501), 22);
    a := StepF(start, 8, a, b, c, d, x, 8, W(0x698098d8), 7);
    d := StepF(start, 9, d, a, b, c, x, 9, W(0x8b44f7af), 12);
    c := StepF(start, 10, c, d, a, b, x, 10, W(0xffff5bb1), 17);
    b := StepF(start, 11, b, c, d, a, x, 11, W(0x895cd7be), 22);
    a := StepF(start, 12, a, b, c, d, x, 12, W(0x6b901122), 7);
    d := StepF(start, 13, d, a, b, c, x, 13, W(0xfd987193), 12);
    c := StepF(start, 14, c, d, a, b, x, 14, W(0xa679438e), 17);
    b := StepF(start, 15, b, c, d, a, x, 15, W(0x49b40821), 22);
  }

  /** Round 2. */
  method Round2(ghost start: State, x: seq<Word>, a0: Word, b0: Word, c0: Word, d0: Word)
    returns (a: Word, b: Word, c: Word, d: Word)
    requires At(x, 16, start, a0, b0, c0, d0)
    ensures At(x, 32, start, a, b, c, d)
  {
    hide At, Row;
    Rows2();
    a, b, c, d := a0, b0, c0, d0;
    a := StepG(start, 16, a, b, c, d, x, 1, W(0xf61e2562), 5);
    d := StepG(start, 17, d, a, b, c, x, 6, W(0xc040b340), 9);
    c := StepG(start, 18, c, d, a, b, x, 11, W(0x265e5a51), 14);
    b := StepG(start, 19, b, c, d, a, x, 0, W(0xe9b6c7aa), 20);
    a := StepG(start, 20, a, b, c, d, x, 5, W(0xd62f105d), 5);
    d := StepG(start, 21, d, a, b, c, x, 10, W(0x02441453), 9);
    c := StepG(start, 22, c, d, a, b, x, 15, W(0xd8a1e681), 14);
    b := StepG(start, 23, b, c, d, a, x, 4, W(0xe7d3fbc8), 20);
    a := StepG(start, 24, a, b, c, d, x, 9, W(0x21e1cde6), 5);
    d := StepG(start, 25, d, a, b, c, x, 14, W(0xc33707d6), 9);
    c := StepG(start, 26, c, d, a, b, x, 3, W(0xf4d50d87), 14);
    b := StepG(start, 27, b, c, d, a, x, 8, W(0x455a14ed), 20);
    a := StepG(start, 28, a, b, c, d, x, 13, W(0xa9e3e905), 5);
    d := StepG(start, 29, d, a, b, c, x, 2, W(0xfcefa3f8), 9);
    c := StepG(start, 30, c, d, a, b, x, 7, W(0x676f02d9), 14);
    b := StepG(start, 31, b, c, d, a, x, 12, W(0x8d2a4c8a), 20);
  }

  /** Round 3. */
  method Round3(ghost start: State, x: seq<Word>, a0: Word, b0: Word, c0: Word, d0: Word)
    returns (a: Word, b: Word, c: Word, d: Word)
    requires At(x, 32, start, a0, b0, c0, d0)
    ensures At(x, 48, start, a, b, c, d)
  {
    hide At, Row;
    Rows3();
    a, b, c, d := a0, b0, c0, d0;
    a := StepH(start, 32, a, b, c, d, x, 5, W(0xfffa3942), 4);
    d := StepH2(start, 33, d, a, b, c, x, 8, W(0x8771f681), 11);
    c := StepH(start, 34, c, d, a, b, x, 11, W(0x6d9d6122), 16);
    b := StepH2(start, 35, b, c, d, a, x, 14, W(0xfde5380c), 23);
    a := StepH(start, 36, a, b, c, d, x, 1, W(0xa4beea44), 4);
    d := StepH2(start, 37, d, a, b, c, x, 4, W(0x4bdecfa9), 11);
    c := StepH(start, 38, c, d, a, b, x, 7, W(0xf6bb4b60), 16);
    b := StepH2(start, 39, b, c, d, a, x, 10, W(0xbebfbc70), 23);
    a := StepH(start, 40, a, b, c, d, x, 13, W(0x289b7ec6), 4);
    d := StepH2(start, 41, d, a, b, c, x, 0, W(0xeaa127fa), 11);
    c := StepH(start, 42, c, d, a, b, x, 3, W(0xd4ef3085), 16);
    b := StepH2(start, 43, b, c, d, a, x, 6, W(0x04881d05), 23);
    a := StepH(start, 44, a, b, c, d, x, 9, W(0xd9d4d039), 4);
    d := StepH2(start, 45, d, a, b, c, x, 12, W(0xe6db99e5), 11);
    c := StepH(start, 46, c, d, a, b, x, 15, W(0x1fa27cf8), 16);
    b := StepH2(start, 47, b, c, d, a, x, 2, W(0xc4ac5665), 23);
  }

  /** Round 4. */
  method Round4(ghost start: State, x: seq<Word>, a0: Word, b0: Word, c0: Word, d0: Word)
    returns (a: Word, b: Word, c: Word, d: Word)
    requires At(x, 48, start, a0, b0, c0, d0)
    ensures At(x, 64, start, a, b, c, d)
  {
    hide At, Row;
    Rows4();
    a, b, c, d := a0, b0, c0, d0;
    a := StepI(start, 48, a, b, c, d, x, 0, W(0xf4292244), 6);
    d := StepI(start, 49, d, a, b, c, x, 7, W(0x432aff97), 10);
    c := StepI(start, 50, c, d, a, b, x, 14, W(0xab9423a7), 15);
    b := StepI(start, 51, b, c, d, a, x, 5, W(0xfc93a039), 21);
    a := StepI(start, 52, a, b, c, d, x, 12, W(0x655b59c3), 6);
    d := StepI(start, 53, d, a, b, c, x, 3, W(0x8f0ccc92), 10);
    c := StepI(start, 54, c, d, a, b, x, 10, W(0xffeff47d), 15);
    b := StepI(start, 55, b, c, d, a, x, 1, W(0x85845dd1), 21);
    a := StepI(start, 56, a, b, c, d, x, 8, W(0x6fa87e4f), 6);
    d := StepI(start, 57, d, a, b, c, x, 15, W(0xfe2ce6e0), 10);
    c := StepI(start, 58, c, d, a, b, x, 6, W(0xa3014314), 15);
    b := StepI(start, 59, b, c, d, a, x, 13, W(0x4e0811a1), 21);
    a := StepI(start, 60, a, b, c, d, x, 4, W(0xf7537e82), 6);
    d := StepI(start, 61, d, a, b, c, x, 11, W(0xbd3af235), 10);
    c := StepI(start, 62, c, d, a, b, x, 2, W(0x2ad7d2bb), 15);
    b := StepI(start, 63, b, c, d, a, x, 9, W(0xeb86d391), 21);
  }
}
