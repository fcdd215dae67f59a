/**
 The frame check sequence of the download protocol (stream_download_protocol.c): the table-driven
 loop against the bit-serial CRC with the polynomial 0x8408, and RFC 1662, appendix C.2.
 */
module Crc {

  type Byte = bv8

  /** The rows of `crc_16_l_table`. */
  function Row0(i: Byte): bv16 {
    match i
    case 0x00 => 0x0000 case 0x01 => 0x1189 case 0x02 => 0x2312 case 0x03 => 0x329b
    case 0x04 => 0x4624 case 0x05 => 0x57ad case 0x06 => 0x6536 case 0x07 => 0x74bf
    case 0x08 => 0x8c48 case 0x09 => 0x9dc1 case 0x0a => 0xaf5a case 0x0b => 0xbed3
    case 0x0c => 0xca6c case 0x0d => 0xdbe5 case 0x0e => 0xe97e case 0x0f => 0xf8f7
    case _ => 0
  }

  function Row1(i: Byte): bv16 {
    match i
    case 0x10 => 0x1081 case 0x11 => 0x0108 case 0x12 => 0x3393 case 0x13 => 0x221a
    case 0x14 => 0x56a5 case 0x15 => 0x472c case 0x16 => 0x75b7 case 0x17 => 0x643e
    case 0x18 => 0x9cc9 case 0x19 => 0x8d40 case 0x1a => 0xbfdb case 0x1b => 0xae52
    case 0x1c => 0xdaed case 0x1d => 0xcb64 case 0x1e => 0xf9ff case 0x1f => 0xe876
    case _ => 0
  }

  function Row2(i: Byte): bv16 {
    match i
    case 0x20 => 0x2102 case 0x21 => 0x308b case 0x22 => 0x0210 case 0x23 => 0x1399
    case 0x24 => 0x6726 case 0x25 => 0x76af case 0x26 => 0x4434 case 0x27 => 0x55bd
    case 0x28 => 0xad4a case 0x29 => 0xbcc3 case 0x2a => 0x8e58 case 0x2b => 0x9fd1
    case 0x2c => 0xeb6e case 0x2d => 0xfae7 case 0x2e => 0xc87c case 0x2f => 0xd9f5
    case _ => 0
  }

  function Row3(i: Byte): bv16 {
    match i
    case 0x30 => 0x3183 case 0x31 => 0x200a case 0x32 => 0x1291 case 0x33 => 0x0318
    case 0x34 => 0x77a7 case 0x35 => 0x662e case 0x36 => 0x54b5 case 0x37 => 0x453c
    case 0x38 => 0xbdcb case 0x39 => 0xac42 case 0x3a => 0x9ed9 case 0x3b => 0x8f50
    case 0x3c => 0xfbef case 0x3d => 0xea66 case 0x3e => 0xd8fd case 0x3f => 0xc974
    case _ => 0
  }

  function Row4(i: Byte): bv16 {
    match i
    case 0x40 => 0x4204 case 0x41 => 0x538d case 0x42 => 0x6116 case 0x43 => 0x709f
    case 0x44 => 0x0420 case 0x45 => 0x15a9 case 0x46 => 0x2732 case 0x47 => 0x36bb
    case 0x48 => 0xce4c case 0x49 => 0xdfc5 case 0x4a => 0xed5e case 0x4b => 0xfcd7
    case 0x4c => 0x8868 case 0x4d => 0x99e1 case 0x4e => 0xab7a case 0x4f => 0xbaf3
    case _ => 0
  }

  function Row5(i: Byte): bv16 {
    match i
    case 0x50 => 0x5285 case 0x51 => 0x430c case 0x52 => 0x7197 case 0x53 => 0x601e
    case 0x54 => 0x14a1 case 0x55 => 0x0528 case 0x56 => 0x37b3 case 0x57 => 0x263a
    case 0x58 => 0xdecd case 0x59 => 0xcf44 case 0x5a => 0xfddf case 0x5b => 0xec56
    case 0x5c => 0x98e9 case 0x5d => 0x8960 case 0x5e => 0xbbfb case 0x5f => 0xaa72
    case _ => 0
  }

  function Row6(i: Byte): bv16 {
    match i
    case 0x60 => 0x6306 case 0x61 => 0x728f case 0x62 => 0x4014 case 0x63 => 0x519d
    case 0x64 => 0x2522 case 0x65 => 0x34ab case 0x66 => 0x0630 case 0x67 => 0x17b9
    case 0x68 => 0xef4e case 0x69 => 0xfec7 case 0x6a => 0xcc5c case 0x6b => 0xddd5
    case 0x6c => 0xa96a case 0x6d => 0xb8e3 case 0x6e => 0x8a78 case 0x6f => 0x9bf1
    case _ => 0
  }

  function Row7(i: Byte): bv16 {
    match i
    case 0x70 => 0x7387 case 0x71 => 0x620e case 0x72 => 0x5095 case 0x73 => 0x411c
    case 0x74 => 0x35a3 case 0x75 => 0x242a case 0x76 => 0x16b1 case 0x77 => 0x0738
    case 0x78 => 0xffcf case 0x79 => 0xee46 case 0x7a => 0xdcdd case 0x7b => 0xcd54
    case 0x7c => 0xb9eb case 0x7d => 0xa862 case 0x7e => 0x9af9 case 0x7f => 0x8b70
    case _ => 0
  }

  function Row8(i: Byte): bv16 {
    match i
    case 0x80 => 0x8408 case 0x81 => 0x9581 case 0x82 => 0xa71a case 0x83 => 0xb693
    case 0x84 => 0xc22c case 0x85 => 0xd3a5 case 0x86 => 0xe13e case 0x87 => 0xf0b7
    case 0x88 => 0x0840 case 0x89 => 0x19c9 case 0x8a => 0x2b52 case 0x8b => 0x3adb
    case 0x8c => 0x4e64 case 0x8d => 0x5fed case 0x8e => 0x6d76 case 0x8f => 0x7cff
    case _ => 0
  }

  function Row9(i: Byte): bv16 {
    match i
    case 0x90 => 0x9489 case 0x91 => 0x8500 case 0x92 => 0xb79b case 0x93 => 0xa612
    case 0x94 => 0xd2ad case 0x95 => 0xc324 case 0x96 => 0xf1bf case 0x97 => 0xe036
    case 0x98 => 0x18c1 case 0x99 => 0x0948 case 0x9a => 0x3bd3 case 0x9b => 0x2a5a
    case 0x9c => 0x5ee5 case 0x9d => 0x4f6c case 0x9e => 0x7df7 case 0x9f => 0x6c7e
    case _ => 0
  }

  function Row10(i: Byte): bv16 {
    match i
    case 0xa0 => 0xa50a case 0xa1 => 0xb483 case 0xa2 => 0x8618 case 0xa3 => 0x9791
    case 0xa4 => 0xe32e case 0xa5 => 0xf2a7 case 0xa6 => 0xc03c case 0xa7 => 0xd1b5
    case 0xa8 => 0x2942 case 0xa9 => 0x38cb case 0xaa => 0x0a50 case 0xab => 0x1bd9
    case 0xac => 0x6f66 case 0xad => 0x7eef case 0xae => 0x4c74 case 0xaf => 0x5dfd
    case _ => 0
  }

  function Row11(i: Byte): bv16 {
    match i
    case 0xb0 => 0xb58b case 0xb1 => 0xa402 case 0xb2 => 0x9699 case 0xb3 => 0x8710
    case 0xb4 => 0xf3af case 0xb5 => 0xe226 case 0xb6 => 0xd0bd case 0xb7 => 0xc134
    case 0xb8 => 0x39c3 case 0xb9 => 0x284a case 0xba => 0x1ad1 case 0xbb => 0x0b58
    case 0xbc => 0x7fe7 case 0xbd => 0x6e6e case 0xbe => 0x5cf5 case 0xbf => 0x4d7c
    case _ => 0
  }

  function Row12(i: Byte): bv16 {
    match i
    case 0xc0 => 0xc60c case 0xc1 => 0xd785 case 0xc2 => 0xe51e case 0xc3 => 0xf497
    case 0xc4 => 0x8028 case 0xc5 => 0x91a1 case 0xc6 => 0xa33a case 0xc7 => 0xb2b3
    case 0xc8 => 0x4a44 case 0xc9 => 0x5bcd case 0xca => 0x6956 case 0xcb => 0x78df
    case 0xcc => 0x0c60 case 0xcd => 0x1de9 case 0xce => 0x2f72 case 0xcf => 0x3efb
    case _ => 0
  }

  function Row13(i: Byte): bv16 {
    match i
    case 0xd0 => 0xd68d case 0xd1 => 0xc704 case 0xd2 => 0xf59f case 0xd3 => 0xe416
    case 0xd4 => 0x90a9 case 0xd5 => 0x8120 case 0xd6 => 0xb3bb case 0xd7 => 0xa232
    case 0xd8 => 0x5ac5 case 0xd9 => 0x4b4c case 0xda => 0x79d7 case 0xdb => 0x685e
    case 0xdc => 0x1ce1 case 0xdd => 0x0d68 case 0xde => 0x3ff3 case 0xdf => 0x2e7a
    case _ => 0
  }

  function Row14(i: Byte): bv16 {
    match i
    case 0xe0 => 0xe70e case 0xe1 => 0xf687 case 0xe2 => 0xc41c case 0xe3 => 0xd595
    case 0xe4 => 0xa12a case 0xe5 => 0xb0a3 case 0xe6 => 0x8238 case 0xe7 => 0x93b1
    case 0xe8 => 0x6b46 case 0xe9 => 0x7acf case 0xea => 0x4854 case 0xeb => 0x59dd
    case 0xec => 0x2d62 case 0xed => 0x3ceb case 0xee => 0x0e70 case 0xef => 0x1ff9
    case _ => 0
  }

  function Row15(i: Byte): bv16 {
    match i
    case 0xf0 => 0xf78f case 0xf1 => 0xe606 case 0xf2 => 0xd49d case 0xf3 => 0xc514
    case 0xf4 => 0xb1ab case 0xf5 => 0xa022 case 0xf6 => 0x92b9 case 0xf7 => 0x8330
    case 0xf8 => 0x7bc7 case 0xf9 => 0x6a4e case 0xfa => 0x58d5 case 0xfb => 0x495c
    case 0xfc => 0x3de3 case 0xfd => 0x2c6a case 0xfe => 0x1ef1 case 0xff => 0x0f78
    case _ => 0
  }

  function Table(i: Byte): bv16 {
    if i < 0x10 then Row0(i)
    else if i < 0x20 then Row1(i)
    else if i < 0x30 then Row2(i)
    else if i < 0x40 then Row3(i)
    else if i < 0x50 then Row4(i)
    else if i < 0x60 then Row5(i)
    else if i < 0x70 then Row6(i)
    else if i < 0x80 then Row7(i)
    else if i < 0x90 then Row8(i)
    else if i < 0xa0 then Row9(i)
    else if i < 0xb0 then Row10(i)
    else if i < 0xc0 then Row11(i)
    else if i < 0xd0 then Row12(i)
    else if i < 0xe0 then Row13(i)
    else if i < 0xf0 then Row14(i)
    else Row15(i)
  }

  // ---------------------------------------------------------------------------------------
  // The bit-serial CRC

  predicate Odd(a: bv16) {
    a & 1 == 1
  }

  function Xor(a: bv16, b: bv16): bv16 {
    a ^ b
  }

  function Half(a: bv16): bv16 {
    a >> 1
  }

  /** The register is shifted by one bit, and the polynomial added if that bit is set. */
  function Shift(crc: bv16): bv16 {
    if Odd(crc) then Xor(Half(crc), 0x8408) else Half(crc)
  }

  /** One bit, the lowest of `data`, goes through the shift register. */
  function SerialBit(crc: bv16, data: bv16): bv16 {
    if Odd(Xor(crc, data)) then Xor(Half(crc), 0x8408) else Half(crc)
  }

  /** The lowest n bits of `data`, the lowest first. */
  function SerialBits(crc: bv16, data: bv16, n: nat): bv16
    decreases n
  {
    if n == 0 then crc else SerialBits(SerialBit(crc, data), Half(data), n - 1)
  }

  function SerialByte(crc: bv16, b: Byte): bv16 {
    SerialBits(crc, b as bv16, 8)
  }

  /** The CRC of a buffer, bit by bit. */
  function Serial(crc: bv16, data: seq<Byte>): bv16
    decreases |data|
  {
    if data == [] then crc else Serial(SerialByte(crc, data[0]), data[1..])
  }

  function Shifts(crc: bv16, n: nat): bv16
    decreases n
  {
    if n == 0 then crc else Shifts(Shift(crc), n - 1)
  }

  function Halves(a: bv16, n: nat): bv16
    decreases n
  {
    if n == 0 then a else Halves(Half(a), n - 1)
  }

  // ---------------------------------------------------------------------------------------
  // The algebra: everything but the polynomial's condition is linear

  lemma XorSwap(a: bv16, b: bv16, c: bv16)
    ensures Xor(Xor(a, b), c) == Xor(Xor(a, c), b)
  {
  }

  lemma XorAssociates(a: bv16, b: bv16, c: bv16)
    ensures Xor(a, Xor(b, c)) == Xor(Xor(a, b), c)
  {
  }

  lemma XorCancels(a: bv16, b: bv16)
    ensures Xor(Xor(a, b), b) == a && Xor(a, 0) == a
  {
  }

  lemma BitLaws(a: bv16, b: bv16)
    ensures Half(Xor(a, b)) == Xor(Half(a), Half(b))
    ensures Odd(Xor(a, b)) == (Odd(a) != Odd(b))
  {
    HalfBits(a, b);
  }

  lemma HalfBits(a: bv16, b: bv16)
    ensures (a ^ b) >> 1 == (a >> 1) ^ (b >> 1)
    ensures (a ^ b) & 1 == (a & 1) ^ (b & 1)
  {
  }

  lemma ShiftLinear(a: bv16, b: bv16)
    ensures Shift(Xor(a, b)) == Xor(Shift(a), Shift(b))
  {
    hide Xor, Odd, Half;
    BitLaws(a, b);
    XorSwap(Half(a), 0x8408, Half(b));
    XorAssociates(Half(a), Half(b), 0x8408);
    XorAssociates(Xor(Half(a), 0x8408), Half(b), 0x8408);
    XorCancels(Xor(Half(a), Half(b)), 0x8408);
  }

  lemma {:induction false} ShiftsLinear(a: bv16, b: bv16, n: nat)
    ensures Shifts(Xor(a, b), n) == Xor(Shifts(a, n), Shifts(b, n))
    decreases n
  {
    if n > 0 {
      hide Xor, Shift;
      ShiftLinear(a, b);
      ShiftsLinear(Shift(a), Shift(b), n - 1);
    }
  }

  /** Feeding data bit by bit is shifting the register with the data added to it. */
  lemma {:induction false} SerialIsShifts(crc: bv16, data: bv16, n: nat)
    ensures Xor(SerialBits(crc, data, n), Halves(data, n)) == Shifts(Xor(crc, data), n)
    decreases n
  {
    if n > 0 {
      hide Xor, Odd, Half;
      BitLaws(crc, data);
      XorSwap(Half(crc), 0x8408, Half(data));
      SerialIsShifts(SerialBit(crc, data), Half(data), n - 1);
    }
  }

  function Low(x: bv16): Byte {
    (x & 0xff) as Byte
  }

  function High(x: bv16): Byte {
    (x >> 8) as Byte
  }

  /** What a table entry is, and how two of the entries are known by their high byte. */
  predicate Entry(i: Byte, x: bv16) {
    x == Shifts(i as bv16, 8) && (High(x) == 0xf0 <==> i == 0x87) && (High(x) == 0x0f <==> i == 0xff)
  }

  lemma Row0Facts(i: Byte)
    requires 0x00 <= i < 0x10
    ensures Entry(i, Row0(i))
  {
  }

  lemma Row1Facts(i: Byte)
    requires 0x10 <= i < 0x20
    ensures Entry(i, Row1(i))
  {
  }

  lemma Row2Facts(i: Byte)
    requires 0x20 <= i < 0x30
    ensures Entry(i, Row2(i))
  {
  }

  lemma Row3Facts(i: Byte)
    requires 0x30 <= i < 0x40
    ensures Entry(i, Row3(i))
  {
  }

  lemma Row4Facts(i: Byte)
    requires 0x40 <= i < 0x50
    ensures Entry(i, Row4(i))
  {
  }

  lemma Row5Facts(i: Byte)
    requires 0x50 <= i < 0x60
    ensures Entry(i, Row5(i))
  {
  }

  lemma Row6Facts(i: Byte)
    requires 0x60 <= i < 0x70
    ensures Entry(i, Row6(i))
  {
  }

  lemma Row7Facts(i: Byte)
    requires 0x70 <= i < 0x80
    ensures Entry(i, Row7(i))
  {
  }

  lemma Row8Facts(i: Byte)
    requires 0x80 <= i < 0x90
    ensures Entry(i, Row8(i))
  {
  }

  lemma Row9Facts(i: Byte)
    requires 0x90 <= i < 0xa0
    ensures Entry(i, Row9(i))
  {
  }

  lemma Row10Facts(i: Byte)
    requires 0xa0 <= i < 0xb0
    ensures Entry(i, Row10(i))
  {
  }

  lemma Row11Facts(i: Byte)
    requires 0xb0 <= i < 0xc0
    ensures Entry(i, Row11(i))
  {
  }

  lemma Row12Facts(i: Byte)
    requires 0xc0 <= i < 0xd0
    ensures Entry(i, Row12(i))
  {
  }

  lemma Row13Facts(i: Byte)
    requires 0xd0 <= i < 0xe0
    ensures Entry(i, Row13(i))
  {
  }

  lemma Row14Facts(i: Byte)
    requires 0xe0 <= i < 0xf0
    ensures Entry(i, Row14(i))
  {
  }

  lemma Row15Facts(i: Byte)
    requires 0xf0 <= i
    ensures Entry(i, Row15(i))
  {
  }

  lemma TableFacts(i: Byte)
    ensures Entry(i, Table(i))
  {
    hide Row0, Row1, Row2, Row3, Row4, Row5, Row6, Row7, Row8, Row9, Row10, Row11, Row12, Row13, Row14, Row15, Entry;
    if i < 0x10 { Row0Facts(i); }
    else if i < 0x20 { Row1Facts(i); }
    else if i < 0x30 { Row2Facts(i); }
    else if i < 0x40 { Row3Facts(i); }
    else if i < 0x50 { Row4Facts(i); }
    else if i < 0x60 { Row5Facts(i); }
    else if i < 0x70 { Row6Facts(i); }
    else if i < 0x80 { Row7Facts(i); }
    else if i < 0x90 { Row8Facts(i); }
    else if i < 0xa0 { Row9Facts(i); }
    else if i < 0xb0 { Row10Facts(i); }
    else if i < 0xc0 { Row11Facts(i); }
    else if i < 0xd0 { Row12Facts(i); }
    else if i < 0xe0 { Row13Facts(i); }
    else if i < 0xf0 { Row14Facts(i); }
    else { Row15Facts(i); }
  }

  /** The high byte of a register only moves down. */
  lemma HighByte(x: bv16)
    ensures Shifts(x & 0xff00, 8) == x >> 8
  {
  }

  lemma NothingLeft(b: Byte)
    ensures Halves(b as bv16, 8) == 0
  {
  }

  lemma ByteParts(crc: bv16, x: bv16, b: Byte)
    requires x == Xor(crc, b as bv16)
    ensures x == Xor(x & 0xff, x & 0xff00) && Low(x) as bv16 == x & 0xff && x >> 8 == crc >> 8
  {
  }

  /** The step of the table-driven loop. */
  function TableByte(crc: bv16, b: Byte): bv16 {
    Xor(Table(Low(Xor(crc, b as bv16))), crc >> 8)
  }

  /** One look-up does the work of eight bits. */
  lemma TableIsSerial(crc: bv16, b: Byte)
    ensures TableByte(crc, b) == SerialByte(crc, b)
  {
    hide Xor, Shifts, Table, Halves, SerialBits, Low;
    var data := b as bv16;
    var x := Xor(crc, data);
    ByteParts(crc, x, b);
    TableFacts(Low(x));
    HighByte(x);
    ShiftsLinear(x & 0xff, x & 0xff00, 8);
    SerialIsShifts(crc, data, 8);
    NothingLeft(b);
    XorCancels(SerialBits(crc, data, 8), 0);
  }

  lemma {:induction false} SerialAppend(crc: bv16, a: seq<Byte>, b: seq<Byte>)
    ensures Serial(crc, a + b) == Serial(Serial(crc, a), b)
    decreases |a|
  {
    if a == [] {
      assert a + b == b;
    } else {
      assert (a + b)[1..] == a[1..] + b;
      SerialAppend(SerialByte(crc, a[0]), a[1..], b);
    }
  }

  function Complement(x: bv16): bv16 {
    !x
  }

  /** The two bytes of the frame check sequence, low byte first. */
  function Fcs(data: seq<Byte>): seq<Byte> {
    var crc := Complement(Serial(0xffff, data));
    [Low(crc), High(crc)]
  }

  /** `crc_16_l_calc`, for whole bytes. */
  method Crc16(buf: array<Byte>, len: nat) returns (crc: bv16)
    requires len <= buf.Length
    ensures crc == Complement(Serial(0xffff, buf[..len]))
  {
    hide Xor, Table, SerialByte, Low, Complement;
    crc := 0xffff;
    var i := 0;
    while i < len
      invariant i <= len && crc == Serial(0xffff, buf[..i])
    {
      TableIsSerial(crc, buf[i]);
      assert buf[..i + 1] == buf[..i] + [buf[i]];
      SerialAppend(0xffff, buf[..i], [buf[i]]);
      SerialOne(crc, buf[i]);
      crc := TableByte(crc, buf[i]);
      i := i + 1;
    }
    crc := Complement(crc);
  }

  lemma SerialOne(crc: bv16, b: Byte)
    ensures Serial(crc, [b]) == SerialByte(crc, b)
  {
    hide SerialByte;
    assert [b][1..] == [];
  }

  const GOOD: bv16 := 0xf0b8

  /** The register after two more bytes, from the table. */
  lemma TwoBytes(crc: bv16, x: Byte, y: Byte)
    ensures Serial(crc, [x, y]) == TableByte(TableByte(crc, x), y)
  {
    hide Table, Xor, SerialByte, TableByte;
    TableIsSerial(crc, x);
    TableIsSerial(TableByte(crc, x), y);
    assert [x, y][1..] == [y];
    SerialOne(SerialByte(crc, x), y);
  }

  /** The bytes of the complement bring every register to the same residue. */
  lemma Residue(crc: bv16)
    ensures TableByte(TableByte(crc, Low(Complement(crc))), High(Complement(crc))) == GOOD
  {
    hide Table, Xor, Low, High, Complement;
    Entries();
    ResidueBits(crc);
  }

  lemma Entries()
    ensures Table(0x87) == 0xf0b7 && Table(0xff) == 0x0f78
  {
  }

  lemma ResidueBits(crc: bv16)
    ensures Low(Xor(crc, Low(Complement(crc)) as bv16)) == 0xff
    ensures Low(Xor(Xor(0x0f78, crc >> 8), High(Complement(crc)) as bv16)) == 0x87
    ensures Xor(0xf0b7, Xor(0x0f78, crc >> 8) >> 8) == GOOD
  {
  }

  lemma OnlyResidue(crc: bv16, x: Byte, y: Byte)
    requires TableByte(TableByte(crc, x), y) == GOOD
    ensures x == Low(Complement(crc)) && y == High(Complement(crc))
  {
    hide Table;
    var i := Low(Xor(crc, x as bv16));
    var c := TableByte(crc, x);
    var j := Low(Xor(c, y as bv16));
    TableFacts(i);
    TableFacts(j);
    Entries();
    XorHigh(Table(j), c, GOOD);
    XorHigh(Table(i), crc, c);
    assert j == 0x87 && i == 0xff;
    OnlyBits(crc, c, x, y);
  }

  lemma OnlyBits(crc: bv16, c: bv16, x: Byte, y: Byte)
    requires Low(Xor(crc, x as bv16)) == 0xff && c == Xor(0x0f78, crc >> 8) && Low(Xor(c, y as bv16)) == 0x87
    ensures x == Low(Complement(crc)) && y == High(Complement(crc))
  {
  }

  lemma XorHigh(entry: bv16, crc: bv16, x: bv16)
    requires x == Xor(entry, crc >> 8)
    ensures High(x) == High(entry) && crc >> 8 == Xor(x, entry)
  {
  }

  /**
   RFC 1662, appendix C.2: a receiver that looks for the residue accepts exactly the data with its
   own check sequence behind it.
   */
  lemma ResidueIff(data: seq<Byte>, x: Byte, y: Byte)
    ensures Serial(0xffff, data + [x, y]) == GOOD <==> [x, y] == Fcs(data)
  {
    hide TableByte, Low, High, Complement;
    var crc := Serial(0xffff, data);
    SerialAppend(0xffff, data, [x, y]);
    TwoBytes(crc, x, y);
    Residue(crc);
    if TableByte(TableByte(crc, x), y) == GOOD {
      OnlyResidue(crc, x, y);
    }
  }

  /** The register takes the values `registers` as the bytes go through. */
  lemma {:induction false} SerialThrough(data: seq<Byte>, registers: seq<bv16>)
    requires |registers| == |data| + 1
    requires forall i | 0 <= i < |data| :: TableByte(registers[i], data[i]) == registers[i + 1]
    ensures Serial(registers[0], data) == registers[|data|]
    decreases |data|
  {
    hide TableByte, SerialByte;
    if data != [] {
      TableIsSerial(registers[0], data[0]);
      assert forall i | 0 <= i < |data| - 1 :: registers[1..][i] == registers[i + 1] && data[1..][i] == data[i + 1];
      assert registers[1..][|data| - 1] == registers[|data|];
      SerialThrough(data[1..], registers[1..]);
    }
  }

  lemma FirstDigits()
    ensures TableByte(0xffff, 0x31) == 0x2f8d
    ensures TableByte(0x2f8d, 0x32) == 0x4d53
    ensures TableByte(0x4d53, 0x33) == 0x634b
    ensures TableByte(0x634b, 0x34) == 0x8b13
    ensures TableByte(0x8b13, 0x35) == 0x44bf
  {
  }

  lemma LastDigits()
    ensures TableByte(0x44bf, 0x36) == 0x198d
    ensures TableByte(0x198d, 0x37) == 0x1ac8
    ensures TableByte(0x1ac8, 0x38) == 0xf795
    ensures TableByte(0xf795, 0x39) == 0x6f91
  {
  }

  /** The check value of the algorithm: the digits from 1 to 9 have the check sequence 0x906e. */
  lemma CheckValue()
    ensures Fcs([0x31, 0x32, 0x33, 0x34, 0x35, 0x36, 0x37, 0x38, 0x39]) == [0x6e, 0x90]
  {
    Complemented();
    FirstDigits();
    LastDigits();
    hide Serial, TableByte, Complement, Low, High;
    SerialThrough([0x31, 0x32, 0x33, 0x34, 0x35, 0x36, 0x37, 0x38, 0x39],
                  [0xffff, 0x2f8d, 0x4d53, 0x634b, 0x8b13, 0x44bf, 0x198d, 0x1ac8, 0xf795, 0x6f91]);
  }

  lemma Complemented()
    ensures Low(Complement(0x6f91)) == 0x6e && High(Complement(0x6f91)) == 0x90
  {
  }
}
