/** The first test vector of RFC 1321, section A.5: the digest of the empty message. */
module Md5Vector {
  import opened Md5Block
  import opened Md5
  import opened Word32

  /** One operation on the only block of the empty message, whose word k is 0x80 if k is 0 and else 0. */
  ghost predicate Made(i: nat, k: nat, t: bv32, s: nat, a: bv32, b: bv32, c: bv32, d: bv32, made: bv32) {
    && Row(i, k, W(t), s)
    && W(made) == Turned(W(b), Sum(W(a), Mix(i, W(b), W(c), W(d)), W(if k == 0 then 0x80 else 0), W(t)), s)
  }

  lemma Made1()
    ensures Made(0, 0, 0xd76aa478, 7, 0x67452301, 0xefcdab89, 0x98badcfe, 0x10325476, 0xa5202774)
    ensures Made(1, 1, 0xe8c7b756, 12, 0x10325476, 0xa5202774, 0xefcdab89, 0x98badcfe, 0xf59592dd)
    ensures Made(2, 2, 0x242070db, 17, 0x98badcfe, 0xf59592dd, 0xa5202774, 0xefcdab89, 0xe7f06b23)
    ensures Made(3, 3, 0xc1bdceee, 22, 0xefcdab89, 0xe7f06b23, 0xf59592dd, 0xa5202774, 0x1b163203)
    ensures Made(4, 4, 0xf57c0faf, 7, 0xa5202774, 0x1b163203, 0xe7f06b23, 0xf59592dd, 0x32033344)
    ensures Made(5, 5, 0x4787c62a, 12, 0xf59592dd, 0x32033344, 0x1b163203, 0xe7f06b23, 0x2f35d494)
    ensures Made(6, 6, 0xa8304613, 17, 0xe7f06b23, 0x2f35d494, 0x32033344, 0x1b163203, 0xf5b158db)
    ensures Made(7, 7, 0xfd469501, 22, 0x1b163203, 0xf5b158db, 0x2f35d494, 0x32033344, 0x9bc13ce9)
    ensures Made(8, 8, 0x698098d8, 7, 0x32033344, 0x9bc13ce9, 0xf5b158db, 0x2f35d494, 0x3893b991)
    ensures Made(9, 9, 0x8b44f7af, 12, 0x2f35d494, 0x3893b991, 0x9bc13ce9, 0xf5b158db, 0xfce4a312)
    ensures Made(10, 10, 0xffff5bb1, 17, 0xf5b158db, 0xfce4a312, 0x3893b991, 0x9bc13ce9, 0xe1ef0576)
    ensures Made(11, 11, 0x895cd7be, 22, 0x9bc13ce9, 0xe1ef0576, 0xfce4a312, 0x3893b991, 0x70768a29)
    ensures Made(12, 12, 0x6b901122, 7, 0x3893b991, 0x70768a29, 0xe1ef0576, 0xfce4a312, 0xf56c7cf1)
    ensures Made(13, 13, 0xfd987193, 12, 0xfce4a312, 0xf56c7cf1, 0x70768a29, 0xe1ef0576, 0x374943a7)
    ensures Made(14, 14, 0xa679438e, 17, 0xe1ef0576, 0x374943a7, 0xf56c7cf1, 0x70768a29, 0x5aa53f75)
    ensures Made(15, 15, 0x49b40821, 22, 0x70768a29, 0x5aa53f75, 0x374943a7, 0xf56c7cf1, 0xd6819c6a)
  {
    Rows1();
    hide Row;
  }

  lemma Made2()
    ensures Made(16, 1, 0xf61e2562, 5, 0xf56c7cf1, 0xd6819c6a, 0x5aa53f75, 0x374943a7, 0x1c7d7513)
    ensures Made(17, 6, 0xc040b340, 9, 0x374943a7, 0x1c7d7513, 0xd6819c6a, 0x5aa53f75, 0x7bd57a3a)
    ensures Made(18, 11, 0x265e5a51, 14, 0x5aa53f75, 0x7bd57a3a, 0x1c7d7513, 0xd6819c6a, 0xc095f13a)
    ensures Made(19, 0, 0xe9b6c7aa, 20, 0xd6819c6a, 0xc095f13a, 0x7bd57a3a, 0x1c7d7513, 0xbd782e17)
    ensures Made(20, 5, 0xd62f105d, 5, 0x1c7d7513, 0xbd782e17, 0xc095f13a, 0x7bd57a3a, 0x3d1e3e6c)
    ensures Made(21, 10, 0x02441453, 9, 0x7bd57a3a, 0x3d1e3e6c, 0xbd782e17, 0xc095f13a, 0x68b7b3e3)
    ensures Made(22, 15, 0xd8a1e681, 14, 0xc095f13a, 0x68b7b3e3, 0x3d1e3e6c, 0xbd782e17, 0xeb41643e)
    ensures Made(23, 4, 0xe7d3fbc8, 20, 0xbd782e17, 0xeb41643e, 0x68b7b3e3, 0x3d1e3e6c, 0xe422531a)
    ensures Made(24, 9, 0x21e1cde6, 5, 0x3d1e3e6c, 0xe422531a, 0xeb41643e, 0x68b7b3e3, 0x306ec122)
    ensures Made(25, 14, 0xc33707d6, 9, 0x68b7b3e3, 0x306ec122, 0xe422531a, 0xeb41643e, 0xd28c77c2)
    ensures Made(26, 3, 0xf4d50d87, 14, 0xeb41643e, 0xd28c77c2, 0x306ec122, 0xe422531a, 0xa3c663da)
    ensures Made(27, 8, 0x455a14ed, 20, 0xe422531a, 0xa3c663da, 0xd28c77c2, 0x306ec122, 0xa0572807)
    ensures Made(28, 13, 0xa9e3e905, 5, 0x306ec122, 0xa0572807, 0xa3c663da, 0xd28c77c2, 0x13707036)
    ensures Made(29, 2, 0xfcefa3f8, 9, 0xd28c77c2, 0x13707036, 0xa0572807, 0xa3c663da, 0xae7813db)
    ensures Made(30, 7, 0x676f02d9, 14, 0xa3c663da, 0xae7813db, 0x13707036, 0xa0572807, 0x1c31c384)
    ensures Made(31, 12, 0x8d2a4c8a, 20, 0xa0572807, 0x1c31c384, 0xae7813db, 0x13707036, 0xa2205f1f)
  {
    Rows2();
    hide Row;
  }

  lemma Made3()
    ensures Made(32, 5, 0xfffa3942, 4, 0x13707036, 0xa2205f1f, 0x1c31c384, 0xae7813db, 0xdf63eaa1)
    ensures Made(33, 8, 0x8771f681, 11, 0xae7813db, 0xdf63eaa1, 0xa2205f1f, 0x1c31c384, 0xc3689f5b)
    ensures Made(34, 11, 0x6d9d6122, 16, 0x1c31c384, 0xc3689f5b, 0xdf63eaa1, 0xa2205f1f, 0x12f3e755)
    ensures Made(35, 14, 0xfde5380c, 23, 0xa2205f1f, 0x12f3e755, 0xc3689f5b, 0xdf63eaa1, 0x004b6669)
    ensures Made(36, 1, 0xa4beea44, 4, 0xdf63eaa1, 0x004b6669, 0x12f3e755, 0xc3689f5b, 0x5f7a9b2e)
    ensures Made(37, 4, 0x4bdecfa9, 11, 0xc3689f5b, 0x5f7a9b2e, 0x004b6669, 0x12f3e755, 0xabc34e16)
    ensures Made(38, 7, 0xf6bb4b60, 16, 0x12f3e755, 0xabc34e16, 0x5f7a9b2e, 0x004b6669, 0x91ca4cb7)
    ensures Made(39, 10, 0xbebfbc70, 23, 0x004b6669, 0x91ca4cb7, 0xabc34e16, 0x5f7a9b2e, 0xc5dc8c15)
    ensures Made(40, 13, 0x289b7ec6, 4, 0x5f7a9b2e, 0xc5dc8c15, 0x91ca4cb7, 0xabc34e16, 0x4497169d)
    ensures Made(41, 0, 0xeaa127fa, 11, 0xabc34e16, 0x4497169d, 0xc5dc8c15, 0x91ca4cb7, 0x76fd93d4)
    ensures Made(42, 3, 0xd4ef3085, 16, 0x91ca4cb7, 0x76fd93d4, 0x4497169d, 0xc5dc8c15, 0xfd95f243)
    ensures Made(43, 6, 0x04881d05, 23, 0xc5dc8c15, 0xfd95f243, 0x76fd93d4, 0x4497169d, 0x0fe32453)
    ensures Made(44, 9, 0xd9d4d039, 4, 0x4497169d, 0x0fe32453, 0xfd95f243, 0x76fd93d4, 0x3f55edfd)
    ensures Made(45, 12, 0xe6db99e5, 11, 0x76fd93d4, 0x3f55edfd, 0x0fe32453, 0xfd95f243, 0x22a31f54)
    ensures Made(46, 15, 0x1fa27cf8, 16, 0xfd95f243, 0x22a31f54, 0x3f55edfd, 0x0fe32453, 0x68d84ea2)
    ensures Made(47, 2, 0xc4ac5665, 23, 0x0fe32453, 0x68d84ea2, 0x22a31f54, 0x3f55edfd, 0xca7d2dbd)
  {
    Rows3();
    hide Row;
  }

  lemma Made4()
    ensures Made(48, 0, 0xf4292244, 6, 0x3f55edfd, 0xca7d2dbd, 0x68d84ea2, 0x22a31f54, 0x93aa2577)
    ensures Made(49, 7, 0x432aff97, 10, 0x22a31f54, 0x93aa2577, 0xca7d2dbd, 0x68d84ea2, 0x1688dc85)
    ensures Made(50, 14, 0xab9423a7, 15, 0x68d84ea2, 0x1688dc85, 0x93aa2577, 0xca7d2dbd, 0xcd85b8cb)
    ensures Made(51, 5, 0xfc93a039, 21, 0xca7d2dbd, 0xcd85b8cb, 0x1688dc85, 0x93aa2577, 0x561e0689)
    ensures Made(52, 12, 0x655b59c3, 6, 0x93aa2577, 0x561e0689, 0xcd85b8cb, 0x1688dc85, 0x5625a114)
    ensures Made(53, 3, 0x8f0ccc92, 10, 0x1688dc85, 0x5625a114, 0x561e0689, 0xcd85b8cb, 0x3450f42b)
    ensures Made(54, 10, 0xffeff47d, 15, 0xcd85b8cb, 0x3450f42b, 0x5625a114, 0x561e0689, 0x392ad0d0)
    ensures Made(55, 1, 0x85845dd1, 21, 0x561e0689, 0x392ad0d0, 0x3450f42b, 0x5625a114, 0x1e77fa61)
    ensures Made(56, 8, 0x6fa87e4f, 6, 0x5625a114, 0x1e77fa61, 0x392ad0d0, 0x3450f42b, 0x474a9c8c)
    ensures Made(57, 15, 0xfe2ce6e0, 10, 0x3450f42b, 0x474a9c8c, 0x1e77fa61, 0x392ad0d0, 0xdfce00bc)
    ensures Made(58, 6, 0xa3014314, 15, 0x392ad0d0, 0xdfce00bc, 0x474a9c8c, 0x1e77fa61, 0x36594b14)
    ensures Made(59, 13, 0x4e0811a1, 21, 0x1e77fa61, 0x36594b14, 0xdfce00bc, 0x474a9c8c, 0x30130182)
    ensures Made(60, 4, 0xf7537e82, 6, 0x474a9c8c, 0x30130182, 0x36594b14, 0xdfce00bc, 0x7246fad3)
    ensures Made(61, 11, 0xbd3af235, 10, 0xdfce00bc, 0x7246fad3, 0x30130182, 0x36594b14, 0x6e10a476)
    ensures Made(62, 2, 0x2ad7d2bb, 15, 0x36594b14, 0x6e10a476, 0x7246fad3, 0x30130182, 0xff4ea3eb)
    ensures Made(63, 9, 0xeb86d391, 21, 0x30130182, 0xff4ea3eb, 0x6e10a476, 0x7246fad3, 0x14e45506)
  {
    Rows4();
    hide Row;
  }

  /** The block of the padding alone. */
  function EmptyBlock(): (block: seq<Byte>)
    ensures |block| == 64
  {
    Padding(0)
  }

  lemma EmptyWords(k: nat)
    requires k < 16
    ensures |Words(EmptyBlock())| == 16 && Words(EmptyBlock())[k] == W(if k == 0 then 0x80 else 0)
  {
    EmptyBytes();
    FourZeros();
    hide Four, EmptyBlock;
  }

  lemma EmptyBytes()
    ensures EmptyBlock()[0] == 0x80 && forall i | 1 <= i < 64 :: EmptyBlock()[i] == 0
  {
    assert Octet(0) == 0;
  }

  lemma FourZeros()
    ensures Four(0x80, 0, 0, 0) == 0x80 && Four(0, 0, 0, 0) == 0
  {
  }

  /** An operation that makes the word it should takes the state on by one operation. */
  lemma Advance(n: nat, k: nat, t: bv32, s: nat, a: bv32, b: bv32, c: bv32, d: bv32, made: bv32)
    requires Made(n, k, t, s, a, b, c, d, made)
    requires At(Words(EmptyBlock()), n, INITIAL, W(a), W(b), W(c), W(d))
    ensures At(Words(EmptyBlock()), n + 1, INITIAL, W(d), W(made), W(b), W(c))
  {
    hide At, Mix, Index, T, Shift, Sum, Turned, Words, EmptyBlock;
    EmptyWords(k);
    var f := Mix(n, W(b), W(c), W(d));
    StepIsOperation(Words(EmptyBlock()), n, INITIAL, W(a), W(b), W(c), W(d), f, k, W(t), s, W(made));
  }

  lemma Advances()
    ensures forall n: nat, k: nat, t, s: nat, a, b, c, d, made {:trigger Made(n, k, t, s, a, b, c, d, made)} |
              Made(n, k, t, s, a, b, c, d, made) && At(Words(EmptyBlock()), n, INITIAL, W(a), W(b), W(c), W(d)) ::
              At(Words(EmptyBlock()), n + 1, INITIAL, W(d), W(made), W(b), W(c))
  {
    hide *;
    forall n: nat, k: nat, t, s: nat, a, b, c, d, made |
        Made(n, k, t, s, a, b, c, d, made) && At(Words(EmptyBlock()), n, INITIAL, W(a), W(b), W(c), W(d))
      ensures At(Words(EmptyBlock()), n + 1, INITIAL, W(d), W(made), W(b), W(c))
    {
      Advance(n, k, t, s, a, b, c, d, made);
    }
  }

  lemma EmptyOperations()
    ensures At(Words(EmptyBlock()), 64, INITIAL, W(0x7246fad3), W(0x14e45506), W(0xff4ea3eb), W(0x6e10a476))
  {
    hide Made, At, Words, EmptyBlock;
    NoOperation(Words(EmptyBlock()), INITIAL);
    Advances();
    Made1();
    Made2();
    Made3();
    Made4();
  }

  lemma EmptyState()
    ensures Compress(INITIAL, EmptyBlock()) == State(W(0xd98c1dd4), W(0x04b2008f), W(0x980980e9), W(0x7e42f8ec))
  {
    hide Words, EmptyBlock, Operations;
    EmptyOperations();
    Unfolded();
    Sums();
    hide Total;
  }

  lemma Unfolded()
    ensures |Words(EmptyBlock())| == 16
    ensures Compress(INITIAL, EmptyBlock()) == Plus(Operations(Words(EmptyBlock()), 64, INITIAL), INITIAL)
  {
    hide Operations, Plus, EmptyBlock, Load;
  }

  lemma Sums()
    ensures Total(0x7246fad3, 0x67452301) == 0xd98c1dd4 && Total(0x14e45506, 0xefcdab89) == 0x04b2008f
    ensures Total(0xff4ea3eb, 0x98badcfe) == 0x980980e9 && Total(0x6e10a476, 0x10325476) == 0x7e42f8ec
  {
  }

  /** MD5 ("") = d41d8cd98f00b204e9800998ecf8427e. */
  lemma EmptyDigest()
    ensures Digest([]) == [0xd4, 0x1d, 0x8c, 0xd9, 0x8f, 0x00, 0xb2, 0x04,
                           0xe9, 0x80, 0x09, 0x98, 0xec, 0xf8, 0x42, 0x7e]
  {
    EmptyState();
    Final();
    assert [] + Padding(0) == EmptyBlock();
    OneBlock(INITIAL, EmptyBlock());
    hide Compress, EmptyBlock, Fold, Output, Padding;
  }

  lemma Final()
    ensures Output(State(W(0xd98c1dd4), W(0x04b2008f), W(0x980980e9), W(0x7e42f8ec))) ==
              [0xd4, 0x1d, 0x8c, 0xd9, 0x8f, 0x00, 0xb2, 0x04, 0xe9, 0x80, 0x09, 0x98, 0xec, 0xf8, 0x42, 0x7e]
  {
  }
}
