/** The numbers that bytes and 32-bit words stand for. */
module Word32 {
  import opened Arith

  const WRAP := 0x1_0000_0000

  function Number(w: bv32): nat {
    w as nat
  }

  function ByteNumber(b: bv8): nat {
    b as nat
  }

  lemma Bound(w: bv32)
    ensures Number(w) < WRAP
  {
  }

  lemma ByteBound(b: bv8)
    ensures ByteNumber(b) < 0x100
  {
  }

  // ---------------------------------------------------------------------------------------
  // Bytes of a word

  /** A word moved up by one byte, with another byte below it. */
  function Join(hi: bv32, lo: bv8): bv32 {
    (hi << 8) | lo as bv32
  }

  function Wide(b: bv8): bv32 {
    b as bv32
  }

  predicate ThreeBytes(w: bv32) {
    w < 0x100_0000
  }

  lemma JoinNumber(hi: bv32, lo: bv8)
    requires ThreeBytes(hi)
    ensures Number(Join(hi, lo)) == 0x100 * Number(hi) + ByteNumber(lo)
  {
    JoinBits(hi, lo);
  }

  lemma JoinBits(hi: bv32, lo: bv8)
    requires hi < 0x100_0000
    ensures ((hi << 8) | lo as bv32) as nat == 0x100 * (hi as nat) + lo as nat
  {
  }

  lemma WideNumber(b: bv8)
    ensures Number(Wide(b)) == ByteNumber(b) && ThreeBytes(Wide(b))
  {
  }

  /** Four bytes put together by shifts, the low-order byte first. */
  function Four(b0: bv8, b1: bv8, b2: bv8, b3: bv8): bv32 {
    b0 as bv32 | (b1 as bv32 << 8) | (b2 as bv32 << 16) | (b3 as bv32 << 24)
  }

  lemma FourJoined(b0: bv8, b1: bv8, b2: bv8, b3: bv8)
    ensures ThreeBytes(Join(Wide(b3), b2)) && ThreeBytes(Join(Join(Wide(b3), b2), b1))
    ensures Four(b0, b1, b2, b3) == Join(Join(Join(Wide(b3), b2), b1), b0)
  {
  }

  lemma FourNumber(b0: bv8, b1: bv8, b2: bv8, b3: bv8)
    ensures
      Number(Four(b0, b1, b2, b3)) ==
        ByteNumber(b0) + 0x100 * ByteNumber(b1) + 0x1_0000 * ByteNumber(b2) + 0x100_0000 * ByteNumber(b3)
  {
    hide *;
    FourJoined(b0, b1, b2, b3);
    WideNumber(b3);
    JoinNumber(Wide(b3), b2);
    JoinNumber(Join(Wide(b3), b2), b1);
    JoinNumber(Join(Join(Wide(b3), b2), b1), b0);
  }

  function LowByte(w: bv32): bv8 {
    (w & 0xff) as bv8
  }

  function Above(w: bv32): bv32 {
    w >> 8
  }

  lemma LowBits(w: bv32)
    ensures ThreeBytes(Above(w)) && w == Join(Above(w), LowByte(w))
  {
  }

  /** The lowest byte of a word and what is above it. */
  lemma LowByteNumber(w: bv32)
    ensures ByteNumber(LowByte(w)) == Number(w) % 0x100
    ensures Number(Above(w)) == Number(w) / 0x100
  {
    hide *;
    LowBits(w);
    JoinNumber(Above(w), LowByte(w));
    ByteBound(LowByte(w));
    DivUnique(Number(w), 0x100, Number(Above(w)), ByteNumber(LowByte(w)));
  }

  /** The four bytes of a word, the low-order byte first. */
  function BytesOf(w: bv32): (s: seq<bv8>)
    ensures |s| == 4
  {
    [LowByte(w), LowByte(w >> 8), LowByte(w >> 16), LowByte(w >> 24)]
  }

  lemma BytesAre(w: bv32)
    ensures BytesOf(w) == [LowByte(w), LowByte(Above(w)), LowByte(Above(Above(w))), LowByte(Above(Above(Above(w))))]
  {
    Shifts(w);
  }

  lemma Shifts(w: bv32)
    ensures w >> 16 == Above(Above(w)) && w >> 24 == Above(Above(Above(w)))
  {
  }

  // ---------------------------------------------------------------------------------------
  // A byte from its number

  lemma ByteZero()
    ensures ByteNumber(0) == 0
  {
  }

  function ByteDouble(hi: bv8, lo: bv1): bv8 {
    (hi << 1) | lo as bv8
  }

  lemma ByteDoubleNumber(hi: bv8, lo: bv1)
    requires ByteNumber(hi) < 0x80
    ensures ByteNumber(ByteDouble(hi, lo)) == 2 * ByteNumber(hi) + (if lo == 1 then 1 else 0)
  {
  }

  lemma {:induction false} SomeByte(n: nat) returns (b: bv8)
    requires n < 0x100
    ensures ByteNumber(b) == n
  {
    hide *;
    if n == 0 {
      ByteZero();
      b := 0;
    } else {
      var hi := SomeByte(n / 2);
      var lo: bv1 := if n % 2 == 1 then 1 else 0;
      ByteDoubleNumber(hi, lo);
      b := ByteDouble(hi, lo);
    }
  }

  lemma ByteBack(b: bv8)
    ensures (b as nat) as bv8 == b
  {
  }

  lemma OnlyByte(n: nat, b: bv8)
    requires n < 0x100 && ByteNumber(b) == n
    ensures n as bv8 == b
  {
    ByteBack(b);
  }

  /** Converting a number to a byte keeps it. */
  lemma ByteOf(n: nat)
    requires n < 0x100
    ensures ByteNumber(n as bv8) == n
  {
    var b := SomeByte(n);
    OnlyByte(n, b);
    hide ByteNumber;
  }

  // ---------------------------------------------------------------------------------------
  // Addition

  function Total(x: bv32, y: bv32): bv32 {
    x + y
  }

  function Next(w: bv32): bv32 {
    w + 1
  }

  function Previous(w: bv32): bv32 {
    w - 1
  }

  function Half(w: bv32): bv32 {
    w >> 1
  }

  function Low(w: bv32): bv1 {
    (w & 1) as bv1
  }

  function Double(w: bv32, low: bv1): bv32 {
    (w << 1) | low as bv32
  }

  predicate Small(w: bv32) {
    w < 0x8000_0000
  }

  lemma Ends()
    ensures Number(0) == 0 && Number(0xffff_ffff) == WRAP - 1 && Next(0xffff_ffff) == 0
  {
  }

  lemma Back(w: bv32)
    ensures (w as nat) as bv32 == w
  {
  }

  lemma OnlyEnds(w: bv32)
    ensures Number(w) == 0 ==> w == 0
    ensures Number(w) == WRAP - 1 ==> w == 0xffff_ffff
  {
    Back(w);
  }

  lemma SmallNumber(w: bv32)
    ensures Number(w) < 0x8000_0000 ==> Small(w)
  {
  }

  lemma HalfBits(w: bv32)
    ensures w == Double(Half(w), Low(w)) && Small(Half(w))
  {
  }

  lemma DoubleNumber(w: bv32, low: bv1)
    requires Small(w)
    ensures Number(Double(w, low)) == 2 * Number(w) + (if low == 1 then 1 else 0)
  {
    DoubleBits(w, low);
  }

  lemma DoubleBits(w: bv32, low: bv1)
    requires w < 0x8000_0000
    ensures ((w << 1) | low as bv32) as nat == 2 * (w as nat) + low as nat
  {
  }

  lemma NextBits(w: bv32)
    ensures Next(w) == if Low(w) == 1 then Double(Next(Half(w)), 0) else Double(Half(w), 1)
  {
  }

  lemma {:induction false} NextNumber(w: bv32)
    ensures Number(Next(w)) == if Number(w) + 1 < WRAP then Number(w) + 1 else 0
    decreases Number(w)
  {
    hide Number, Next, Half, Low, Double, Small;
    Bound(w);
    Ends();
    OnlyEnds(w);
    HalfBits(w);
    NextBits(w);
    DoubleNumber(Half(w), Low(w));
    if Low(w) == 0 {
      DoubleNumber(Half(w), 1);
    } else if Number(w) + 1 < WRAP {
      NextNumber(Half(w));
      SmallNumber(Next(Half(w)));
      DoubleNumber(Next(Half(w)), 0);
    }
  }

  lemma TotalCommutes(x: bv32, y: bv32)
    ensures Total(x, y) == Total(y, x)
  {
  }

  lemma MoveOne(x: bv32, y: bv32)
    ensures Total(x, y) == Total(Next(x), Previous(y))
    ensures Next(Previous(y)) == y
    ensures Total(x, 0) == x
  {
  }

  /** The sum of two words is that of their numbers, unless it wraps around. */
  lemma {:induction false} TotalNumber(x: bv32, y: bv32)
    ensures
      var sum := Number(x) + Number(y);
      Number(Total(x, y)) == if sum < WRAP then sum else sum - WRAP
    decreases Number(y)
  {
    hide *;
    Bound(x);
    Bound(y);
    MoveOne(x, y);
    Ends();
    OnlyEnds(y);
    if y != 0 {
      NextNumber(x);
      NextNumber(Previous(y));
      Bound(Previous(y));
      TotalNumber(Next(x), Previous(y));
    }
  }

  lemma TotalModulo(x: bv32, y: bv32)
    ensures Number(Total(x, y)) == (Number(x) + Number(y)) % WRAP
  {
    hide Number, Total;
    TotalNumber(x, y);
    Bound(Total(x, y));
    var sum := Number(x) + Number(y);
    DivUnique(sum, WRAP, if sum < WRAP then 0 else 1, Number(Total(x, y)));
  }
}
