/**
 The host side of the download protocol (stream_download_protocol.c): composing a packet, sending
 it, and writing an image block by block with stop-and-wait.
 */
module Download {
  import opened Bytes
  import opened Arith
  import opened Crc
  import opened Hdlc

  const BUFFER_SIZE := 1280     // g_Transmit_Buffer and stream_tx_buf
  const BLOCK := 1024
  const RETRIES := 3
  const TWO32 := 0x1_0000_0000

  const WRITE: Byte := 0x07

  // ---------------------------------------------------------------------------------------
  // What the target makes of a frame

  /** The low eight bits of a number, as two nibbles. */
  function Octet(n: nat): Byte {
    Joined(Nibble(n / 16 % 16), Nibble(n % 16))
  }

  function Nibble(n: nat): Byte
    requires n < 16
  {
    n as Byte
  }

  function Joined(high: Byte, low: Byte): Byte {
    (high << 4) | low
  }

  function Value(b: Byte): nat {
    b as nat
  }

  function AddressBytes(addr: nat): (s: seq<Byte>)
    ensures |s| == 4
  {
    [Octet(addr), Octet(addr / 0x100), Octet(addr / 0x1_0000), Octet(addr / 0x100_0000)]
  }

  function AddressOf(s: seq<Byte>): nat
    requires |s| == 4
  {
    Value(s[0]) + 0x100 * Value(s[1]) + 0x1_0000 * Value(s[2]) + 0x100_0000 * Value(s[3])
  }

  function WritePacket(addr: nat, data: seq<Byte>): seq<Byte> {
    [WRITE] + AddressBytes(addr) + data
  }

  /** A packet with its check sequence. */
  function Checked(packet: seq<Byte>): seq<Byte> {
    packet + Fcs(packet)
  }

  /** The address and the data of a write command that arrives intact. */
  function Understood(frame: seq<Byte>): Option<(nat, seq<Byte>)> {
    var s := Received(frame);
    if |s| < 8 || s[|s| - 1] != 0x7e || Serial(0xffff, s[..|s| - 1]) != 0xf0b8 || s[0] != 0x07 then None
    else Some((AddressOf(s[1..5]), s[5..|s| - 3]))
  }

  lemma OctetValue(n: nat)
    ensures Value(Octet(n)) == n % 256
  {
    hide Value, Nibble, Joined;
    NibbleValue(n / 16 % 16);
    NibbleValue(n % 16);
    JoinedValue(Nibble(n / 16 % 16), Nibble(n % 16));
    var q, low := DivParts(n, 16);
    var r, high := DivParts(q, 16);
    DivUnique(n, 256, r, 16 * high + low);
  }

  lemma NibbleValue(n: nat)
    requires n < 16
    ensures Value(Nibble(n)) == n
  {
  }

  lemma JoinedValue(high: Byte, low: Byte)
    requires Value(high) < 16 && Value(low) < 16
    ensures Value(Joined(high, low)) == 16 * Value(high) + Value(low)
  {
    JoinedBits(high, low, Joined(high, low));
  }

  lemma JoinedBits(high: Byte, low: Byte, b: Byte)
    requires high as nat < 16 && low as nat < 16 && b == (high << 4) | low
    ensures b >> 4 == high && b & 15 == low && b as nat == 16 * high as nat + low as nat
  {
  }

  lemma AddressValues(s: seq<Byte>)
    requires |s| == 4
    ensures AddressOf(s) == s[0] as nat + 0x100 * s[1] as nat + 0x1_0000 * s[2] as nat + 0x100_0000 * s[3] as nat
  {
  }

  lemma AddressRoundTrip(addr: nat)
    requires addr < TWO32
    ensures AddressOf(AddressBytes(addr)) == addr
  {
    hide Octet, Value, Nibble, Joined;
    OctetValue(addr);
    OctetValue(addr / 0x100);
    OctetValue(addr / 0x1_0000);
    OctetValue(addr / 0x100_0000);
    var a, r := DivParts(addr, 0x100);
    var b, s := DivParts(a, 0x100);
    var c, t := DivParts(b, 0x100);
    DivUnique(addr, 0x1_0000, b, 0x100 * s + r);
    DivUnique(addr, 0x100_0000, c, 0x1_0000 * t + 0x100 * s + r);
    DivUnique(c, 0x100, 0, c);
  }

  /** The number that the four bytes stand for, the low-order byte first. */
  lemma AddressNumber(addr: nat)
    requires addr < TWO32
    ensures
      var s := AddressBytes(addr);
      s[0] as nat + 0x100 * s[1] as nat + 0x1_0000 * s[2] as nat + 0x100_0000 * s[3] as nat == addr
  {
    AddressValues(AddressBytes(addr));
    AddressRoundTrip(addr);
    hide AddressOf, AddressBytes;
  }

  /** What `send_packet` puts on the wire for a block is understood as that block at that address. */
  lemma WriteIsUnderstood(addr: nat, data: seq<Byte>)
    requires addr < TWO32
    ensures Understood(Frame(Checked(WritePacket(addr, data)))) == Some((addr, data))
  {
    hide Serial, Frame, Received, AddressOf, AddressBytes, Low, High, Complement;
    var packet := WritePacket(addr, data);
    var fcs := Fcs(packet);
    var body := packet + fcs;
    RoundTrip(body);
    ResidueIff(packet, fcs[0], fcs[1]);
    assert [fcs[0], fcs[1]] == fcs;
    AddressRoundTrip(addr);
    var s := Received(Frame(body));
    assert s == body + [FLAG] && s[..|s| - 1] == body;
    assert s[1..5] == AddressBytes(addr) && s[5..|s| - 3] == data;
  }

  // ---------------------------------------------------------------------------------------
  // The image the target ends up with

  /** Every block is filled from the first block of the data: `handle_write` does not move its pointer. */
  function Tiled(data: seq<Byte>, size: nat): (s: seq<Byte>)
    requires size <= |data|
    ensures |s| == size
  {
    seq(size, k requires 0 <= k < size => data[k % BLOCK])
  }

  /**
   The image is the data exactly when every byte equals the one a block before it, so always for
   data of at most one block.
   */
  lemma TiledIff(data: seq<Byte>)
    ensures Tiled(data, |data|) == data <==> forall k | 1024 <= k < |data| :: data[k] == data[k - 1024]
  {
    if forall k | BLOCK <= k < |data| :: data[k] == data[k - BLOCK] {
      forall k | 0 <= k < |data|
        ensures data[k] == data[k % BLOCK]
      {
        Periodic(data, k);
      }
    } else {
      var k :| BLOCK <= k < |data| && data[k] != data[k - BLOCK];
      SameOffset(k);
      var tiled := Tiled(data, |data|);
      assert tiled[k] == data[k % BLOCK] == tiled[k - BLOCK];
    }
  }

  lemma SameOffset(k: nat)
    requires k >= BLOCK
    ensures k % BLOCK == (k - BLOCK) % BLOCK
  {
    var q, r := DivParts(k, BLOCK);
    DivUnique(k - BLOCK, BLOCK, q - 1, r);
  }

  lemma {:induction false} Periodic(data: seq<Byte>, k: nat)
    requires k < |data| && forall j | BLOCK <= j < |data| :: data[j] == data[j - BLOCK]
    ensures data[k] == data[k % BLOCK]
  {
    if k >= BLOCK {
      SameOffset(k);
      Periodic(data, k - BLOCK);
    } else {
      DivUnique(k, BLOCK, 0, k);
    }
  }

  /** An image one byte longer than a block that arrives wrong although every packet is answered. */
  lemma SecondBlockWrong()
    ensures
      var data := seq(1024, _ => 0 as Byte) + [1];
      Tiled(data, |data|) != data
  {
    var data := seq(BLOCK, _ => 0 as Byte) + [1];
    TiledIff(data);
    assert data[BLOCK] != data[0];
  }

  lemma TiledMore(data: seq<Byte>, blocks: nat, n: nat)
    requires BLOCK * blocks + n <= |data| && n <= BLOCK
    ensures Tiled(data, BLOCK * blocks + n) == Tiled(data, BLOCK * blocks) + data[..n]
  {
    var more := Tiled(data, BLOCK * blocks + n);
    forall k | 0 <= k < n
      ensures more[BLOCK * blocks + k] == data[k]
    {
      DivUnique(BLOCK * blocks + k, BLOCK, blocks, k);
    }
    assert more[BLOCK * blocks..] == data[..n];
    assert more[..BLOCK * blocks] == Tiled(data, BLOCK * blocks);
  }

  // ---------------------------------------------------------------------------------------
  // Sending with stop-and-wait

  /** What becomes of one call of `send_packet` and the answer to it. */
  datatype Event =
    | Fails                       // the write to the device fails
    | Lost                        // the packet does not arrive: no answer, or another answer
    | Delivered(answered: bool)   // it arrives; the answer 0x08 comes back, or does not

  function Blocks(size: nat): nat {
    (size + BLOCK - 1) / BLOCK
  }

  function Answers(events: nat -> Event, n: nat): nat {
    if n == 0 then 0 else Answers(events, n - 1) + if events(n - 1) == Delivered(true) then 1 else 0
  }

  function Misses(events: nat -> Event, n: nat): nat {
    if n == 0 then 0
    else Misses(events, n - 1) + if events(n - 1) == Lost || events(n - 1) == Delivered(false) then 1 else 0
  }

  function BlockAt(data: seq<Byte>, size: nat, block: nat): seq<Byte>
    requires size <= |data|
  {
    if BLOCK * block + BLOCK <= size then data[..BLOCK]
    else if BLOCK * block <= size then data[..size - BLOCK * block]
    else []
  }

  /**
   The packet of a block fits the send buffer of 1280 bytes, which the program does not check: with
   nine bytes around the data, as many as its flag and escape characters leave room for.
   */
  predicate BlockFits(data: seq<Byte>, size: nat, block: nat)
    requires size <= |data|
  {
    var part := BlockAt(data, size, block);
    |part| + 9 + Specials(Checked(WritePacket(1024 * block, part))) <= 1280
  }

  lemma BlockFitsIff(data: seq<Byte>, size: nat, block: nat)
    requires size <= |data|
    ensures BlockFits(data, size, block)
            <==> |Frame(Checked(WritePacket(BLOCK * block, BlockAt(data, size, block))))| <= BUFFER_SIZE
  {
    hide Stuff, Specials, Serial, AddressBytes, BlockAt;
    StuffLength(Checked(WritePacket(BLOCK * block, BlockAt(data, size, block))));
  }

  lemma {:induction false} SpecialsAppend(a: seq<Byte>, b: seq<Byte>)
    ensures Specials(a + b) == Specials(a) + Specials(b)
  {
    hide Special;
    if b == [] {
      assert a + b == a;
    } else {
      var n := |b| - 1;
      SpecialsAppend(a, b[..n]);
      assert (a + b)[..|a| + n] == a + b[..n];
    }
  }

  lemma {:induction false} AllSpecial(data: seq<Byte>)
    requires forall k | 0 <= k < |data| :: Special(data[k])
    ensures Specials(data) == |data|
  {
    hide Special;
    if data != [] {
      AllSpecial(data[..|data| - 1]);
    }
  }

  /** A block of escape characters does not fit: more than 247 special bytes are too many for a full block. */
  lemma EscapesDoNotFit()
    ensures
      var data := seq(1024, _ => 0x7d as Byte);
      !BlockFits(data, 1024, 0)
  {
    hide Specials, Serial, AddressBytes, Special;
    var data := seq(BLOCK, _ => ESCAPE);
    assert data[..BLOCK] == data && BlockAt(data, BLOCK, 0) == data;
    assert Special(ESCAPE) by { EscapeIsSpecial(); }
    AllSpecial(data);
    var front, fcs := [WRITE] + AddressBytes(0), Fcs(WritePacket(0, data));
    SpecialsAppend(front, data);
    SpecialsAppend(front + data, fcs);
  }

  lemma EscapeIsSpecial()
    ensures Special(ESCAPE)
  {
  }

  /** A packet on the wire, with or without the flag in front. */
  function Framed(packet: seq<Byte>, flag: bool): seq<Byte> {
    if flag then Frame(packet) else Frame(packet)[1..]
  }

  lemma FramedParts(packet: seq<Byte>, flag: bool)
    ensures Framed(packet, flag) == (if flag then [FLAG] else []) + Stuff(packet) + [FLAG]
  {
    hide Stuff;
    assert !flag ==> Framed(packet, flag) == [] + Stuff(packet) + [FLAG];
  }

  datatype Result = Answered | WriteFailed | OutOfRetries | Overrun

  class Host {
    const transmit: array<Byte>
    var length: nat
    const wire: array<Byte>
    var memory: seq<Byte>         // the target's

    ghost predicate Valid()
      reads this
    {
      transmit.Length == BUFFER_SIZE == wire.Length && transmit != wire && length + 2 <= BUFFER_SIZE
    }

    /** `compose_packet`. */
    method ComposePacket(cmd: Byte, parameter: seq<Byte>, data: seq<Byte>)
      requires Valid() && |parameter| + |data| + 3 <= BUFFER_SIZE
      modifies `length, transmit
      ensures Valid() && transmit[..length] == [cmd] + parameter + data
    {
      transmit[0] := cmd;
      var i := 0;
      while i < |parameter|
        invariant i <= |parameter| && transmit[..1 + i] == [cmd] + parameter[..i]
      {
        transmit[1 + i] := parameter[i];
        assert transmit[..2 + i] == transmit[..1 + i] + [parameter[i]];
        i := i + 1;
      }
      assert parameter[..|parameter|] == parameter;
      i := 0;
      while i < |data|
        invariant i <= |data| && transmit[..1 + |parameter| + i] == [cmd] + parameter + data[..i]
      {
        transmit[1 + |parameter| + i] := data[i];
        assert transmit[..2 + |parameter| + i] == transmit[..1 + |parameter| + i] + [data[i]];
        i := i + 1;
      }
      assert data[..|data|] == data;
      length := 1 + |parameter| + |data|;
      transmit[length] := 0;
    }

    /** `compute_reply_crc`: appends the check sequence. */
    method ComputeReplyCrc()
      requires Valid()
      modifies `length, transmit
      ensures transmit[..] == old(transmit[..length]) + Fcs(old(transmit[..length])) + old(transmit[length + 2..])
      ensures length == old(length) + 2
    {
      hide Serial, Low, High, Complement;
      var crc := Crc16(transmit, length);
      transmit[length] := Low(crc);
      transmit[length + 1] := High(crc);
      length := length + 2;
    }

    /** One byte of a packet, escaped if need be. */
    method TransmitByte(ch: Byte, at: nat) returns (n: nat)
      requires at + |StuffByte(ch)| <= wire.Length
      modifies wire
      ensures n == at + |StuffByte(ch)| && wire[..n] == old(wire[..at]) + StuffByte(ch)
    {
      n := at;
      if ch == FLAG || ch == ESCAPE {
        wire[n] := ESCAPE;
        wire[n + 1] := Toggle(ch);
        n := n + 2;
      } else {
        wire[n] := ch;
        n := n + 1;
      }
    }

    /** `send_packet`: n bytes on the wire, unless the buffer is too small for them,
        which the program does not notice. */
    method SendPacket(flag: bool) returns (n: nat, overrun: bool)
      requires transmit.Length == BUFFER_SIZE == wire.Length && transmit != wire && length <= BUFFER_SIZE
      modifies wire
      ensures
        var frame := Framed(transmit[..length], flag);
        && |frame| == length + Specials(transmit[..length]) + (if flag then 2 else 1)
        && (overrun <==> |frame| > BUFFER_SIZE)
        && (!overrun ==> n == |frame| && wire[..n] == frame)
    {
      hide Toggle, FLAG, ESCAPE, Stuff, Specials, StuffByte, Framed;
      ghost var packet := transmit[..length];
      StuffLength(packet);
      FramedParts(packet, flag);
      StuffNone(packet[..0]);
      n, overrun := 0, true;
      if flag {
        wire[0] := FLAG;
        n := 1;
      }
      ghost var start := wire[..n];
      var i := 0;
      while i < length
        invariant i <= length && transmit[..length] == packet
        invariant n == |start| + |Stuff(packet[..i])| <= BUFFER_SIZE && wire[..n] == start + Stuff(packet[..i])
      {
        StuffNext(packet, i);
        if n + |StuffByte(transmit[i])| > wire.Length {
          return;
        }
        n := TransmitByte(transmit[i], n);
        i := i + 1;
      }
      assert packet[..length] == packet;
      if n == wire.Length {
        return;
      }
      wire[n] := FLAG;
      n, overrun := n + 1, false;
    }

    /** `pkt_write_multi_image`. */
    method PktWriteMultiImage(addr: nat, data: seq<Byte>)
      requires Valid() && |data| <= BLOCK
      modifies `length, transmit
      ensures Valid() && transmit[..length] == Checked(WritePacket(addr, data))
    {
      hide Fcs, Octet;
      ComposePacket(WRITE, AddressBytes(addr), data);
      ghost var packet := transmit[..length];
      ComputeReplyCrc();
      assert transmit[..length] == packet + Fcs(packet);
    }

    /** Sends the packet once; a packet that arrives is carried out by the target. */
    method Exchange(event: Event, ghost addr: nat, ghost block: seq<Byte>) returns (overrun: bool)
      requires transmit.Length == BUFFER_SIZE == wire.Length && transmit != wire && length <= BUFFER_SIZE
      requires transmit[..length] == Checked(WritePacket(addr, block))
      requires addr < TWO32 && addr + |block| <= |memory|
      modifies wire, `memory
      ensures overrun <==> |Frame(Checked(WritePacket(addr, block)))| > BUFFER_SIZE
      ensures memory == if event.Delivered? && !overrun then Overwrite(old(memory), addr, block) else old(memory)
    {
      hide Frame, Checked, Understood, Specials;
      var n;
      n, overrun := SendPacket(true);
      if event.Delivered? && !overrun {
        WriteIsUnderstood(addr, block);
        var command := Understood(wire[..n]);
        memory := Overwrite(memory, command.value.0, command.value.1);
      }
    }

    /** From the label `start_send_packet` on: one block, until it is answered or the retries are used up. */
    method SendBlock(ghost addr: nat, ghost block: seq<Byte>, ghost blocks: nat, events: nat -> Event, from: nat,
                     retryCnt: nat)
      returns (result: Result, sends: nat, left: nat)
      requires transmit.Length == BUFFER_SIZE == wire.Length && transmit != wire && length <= BUFFER_SIZE
      requires transmit[..length] == Checked(WritePacket(addr, block))
      requires addr < TWO32 && addr + |block| <= |memory|
      requires 0 < retryCnt <= RETRIES && Tally(events, from, blocks, RETRIES - retryCnt)
      modifies wire, `memory
      ensures memory == old(memory) || memory == Overwrite(old(memory), addr, block)
      ensures result == Answered ==> memory == Overwrite(old(memory), addr, block)
      ensures left <= retryCnt && (result == OutOfRetries <==> left == 0)
      ensures result == Overrun <==> |Frame(Checked(WritePacket(addr, block)))| > BUFFER_SIZE
      ensures result == Overrun ==> memory == old(memory) && sends == from && left == retryCnt
      ensures result == Answered ==> Tally(events, sends, blocks + 1, RETRIES - left)
      ensures result == OutOfRetries ==> Tally(events, sends, blocks, RETRIES)
      ensures result == WriteFailed ==>
          sends > 0 && events(sends - 1) == Fails && Tally(events, sends - 1, blocks, RETRIES - left)
    {
      hide Frame, Checked, Overwrite, Tally;
      Twice(memory, addr, block);
      sends, left := from, retryCnt;
      while true
        invariant 0 < left <= retryCnt && Tally(events, sends, blocks, RETRIES - left)
        invariant memory == old(memory) || memory == Overwrite(old(memory), addr, block)
        invariant |Frame(Checked(WritePacket(addr, block)))| > BUFFER_SIZE ==>
            memory == old(memory) && sends == from && left == retryCnt
        decreases left
      {
        var event := events(sends);
        TallyNext(events, sends, blocks, RETRIES - left);
        var overrun := Exchange(event, addr, block);
        if overrun {
          return Overrun, sends, left;
        }
        sends := sends + 1;
        if event == Fails {
          return WriteFailed, sends, left;
        }
        if event == Delivered(true) {
          return Answered, sends, left;
        }
        left := left - 1;
        if left == 0 {
          return OutOfRetries, sends, left;
        }
      }
    }

    /**
     `handle_write`. It succeeds exactly when every block is answered before three packets have
     missed their answer, before a write to the device fails, and before a block is reached that does
     not fit the send buffer; the target's memory then holds the tiled image. What the program does
     once it has written beyond that buffer is not part of the model.
     */
    method HandleWrite(data: seq<Byte>, total: nat, events: nat -> Event)
      returns (ok: bool, sends: nat, overrun: bool)
      requires Valid() && total <= |data| && total < TWO32 && total <= |memory|
      modifies `length, transmit, wire, `memory
      ensures |memory| == |old(memory)| && memory[total..] == old(memory[total..])
      ensures ok ==> memory[..total] == Tiled(data, total)
      ensures ok <==> Answers(events, sends) == Blocks(total)
      ensures ok ==> Misses(events, sends) < 3 && forall i | 0 <= i < sends :: events(i) != Fails
      ensures !ok && !overrun ==> Misses(events, sends) == 3 || (sends > 0 && events(sends - 1) == Fails)
      // it stops at the first block that does not fit, if it gets there
      ensures overrun <==> !ok && !BlockFits(data, total, Answers(events, sends))
      ensures forall block: nat | block < Answers(events, sends) :: BlockFits(data, total, block)
      ensures sends <= Blocks(total) + 2
    {
      hide Overwrite, Frame, Checked, Tiled, BlockFits, Blocks, BlockAt, Tally, Image, Done, Answers, Misses,
          WritePacket;
      var size: nat, addr: nat, retryCnt: nat := total, 0, RETRIES;
      ghost var blocks, before := 0, memory;
      sends := 0;
      NothingWritten(data, memory, total);
      NothingSent(events);
      while size > 0
        invariant Valid() && addr + size == total && Done(total, addr, blocks) && 0 < retryCnt <= RETRIES
        invariant |memory| == |before| && Image(data, memory, before, addr, total)
        invariant Tally(events, sends, blocks, RETRIES - retryCnt)
        invariant forall block: nat | block < blocks :: BlockFits(data, total, block)
        decreases size, retryCnt
      {
        var writesize := if size < BLOCK then size else BLOCK;
        NextFits(data, total, addr, blocks, writesize);
        PktWriteMultiImage(addr, data[..writesize]);
        NextImage(data, memory, before, addr, total, blocks, writesize);
        var result;
        result, sends, retryCnt := SendBlock(addr, data[..writesize], blocks, events, sends, retryCnt);
        if result != Answered {
          overrun := result == Overrun;
          Stopped(events, sends, blocks, RETRIES - retryCnt, total, overrun);
          return false, sends, overrun;
        }
        size, addr, blocks := size - writesize, addr + writesize, blocks + 1;
      }
      Completed(events, sends, blocks, RETRIES - retryCnt, total, addr);
      ImageComplete(data, memory, before, total);
      ok, overrun := true, false;
    }
  }

  /** The first n events: so many answers, so many misses, no failed write. */
  ghost predicate Tally(events: nat -> Event, n: nat, answers: nat, misses: nat) {
    && Answers(events, n) == answers && Misses(events, n) == misses && n == answers + misses
    && forall i | 0 <= i < n :: events(i) != Fails
  }

  lemma NothingSent(events: nat -> Event)
    ensures Tally(events, 0, 0, 0)
  {
  }

  lemma TallyNext(events: nat -> Event, n: nat, answers: nat, misses: nat)
    requires Tally(events, n, answers, misses)
    ensures events(n) == Delivered(true) ==> Tally(events, n + 1, answers + 1, misses)
    ensures events(n) == Delivered(false) || events(n) == Lost ==> Tally(events, n + 1, answers, misses + 1)
  {
  }

  lemma Stopped(events: nat -> Event, sends: nat, blocks: nat, misses: nat, total: nat, overrun: bool)
    requires blocks < Blocks(total) && misses <= RETRIES
    requires if overrun then Tally(events, sends, blocks, misses) && misses < RETRIES
             else || (Tally(events, sends, blocks, misses) && misses == RETRIES)
                  || (sends > 0 && events(sends - 1) == Fails && Tally(events, sends - 1, blocks, misses)
                      && misses < RETRIES)
    ensures Answers(events, sends) == blocks && sends <= Blocks(total) + 2
    ensures !overrun ==> Misses(events, sends) == RETRIES || (sends > 0 && events(sends - 1) == Fails)
  {
    hide Blocks;
  }

  lemma Completed(events: nat -> Event, sends: nat, blocks: nat, misses: nat, total: nat, addr: nat)
    requires Tally(events, sends, blocks, misses) && misses < RETRIES && Done(total, addr, blocks) && addr == total
    ensures Answers(events, sends) == blocks == Blocks(total) && Misses(events, sends) < RETRIES
    ensures sends <= Blocks(total) + 2
    ensures forall i | 0 <= i < sends :: events(i) != Fails
  {
    hide Blocks;
  }

  /** `addr` bytes have been written in `blocks` blocks. */
  ghost predicate Done(total: nat, addr: nat, blocks: nat) {
    addr <= total && blocks == Blocks(addr) <= Blocks(total) && (addr < total ==> addr == BLOCK * blocks)
  }

  /** The image so far; memory behind it is untouched. */
  ghost predicate Image(data: seq<Byte>, memory: seq<Byte>, before: seq<Byte>, addr: nat, total: nat) {
    && addr <= total <= |data| && |memory| == |before| >= total
    && memory[..addr] == Tiled(data, addr) && memory[total..] == before[total..]
  }

  lemma NothingWritten(data: seq<Byte>, memory: seq<Byte>, total: nat)
    requires total <= |data| && total <= |memory|
    ensures Done(total, 0, 0) && Image(data, memory, memory, 0, total)
  {
  }

  lemma NextFits(data: seq<Byte>, total: nat, addr: nat, blocks: nat, n: nat)
    requires total <= |data| && Done(total, addr, blocks) && addr < total
    requires n == if total - addr < BLOCK then total - addr else BLOCK
    ensures BlockFits(data, total, blocks) <==> |Frame(Checked(WritePacket(addr, data[..n])))| <= BUFFER_SIZE
    ensures Done(total, addr + n, blocks + 1) && blocks < Blocks(total) && addr == BLOCK * blocks
  {
    BlockFitsIff(data, total, blocks);
    hide Frame, Checked, WritePacket, BlockFits;
    assert data[..n] == BlockAt(data, total, blocks);
    DivUnique(addr + n + BLOCK - 1, BLOCK, blocks + 1, n - 1);
    var q, r := DivParts(total + BLOCK - 1, BLOCK);
    assert q >= blocks + 1;
  }

  lemma NextImage(data: seq<Byte>, memory: seq<Byte>, before: seq<Byte>, addr: nat, total: nat, blocks: nat, n: nat)
    requires Image(data, memory, before, addr, total) && addr == BLOCK * blocks && addr + n <= total && n <= BLOCK
    ensures Image(data, Overwrite(memory, addr, data[..n]), before, addr + n, total)
    ensures Overwrite(memory, addr, data[..n])[total..] == memory[total..] == before[total..]
  {
    hide Tiled;
    TiledMore(data, blocks, n);
    var after := Overwrite(memory, addr, data[..n]);
    assert after[..addr + n] == memory[..addr] + data[..n];
  }

  lemma ImageComplete(data: seq<Byte>, memory: seq<Byte>, before: seq<Byte>, total: nat)
    requires Image(data, memory, before, total, total)
    ensures memory[..total] == Tiled(data, total) && memory[total..] == before[total..]
  {
  }

  lemma Twice(memory: seq<Byte>, addr: nat, block: seq<Byte>)
    requires addr + |block| <= |memory|
    ensures Overwrite(Overwrite(memory, addr, block), addr, block) == Overwrite(memory, addr, block)
  {
  }

  lemma StuffNone(data: seq<Byte>)
    requires data == []
    ensures Stuff(data) == []
  {
  }

  lemma StuffNext(data: seq<Byte>, i: nat)
    requires i < |data|
    ensures Stuff(data[..i + 1]) == Stuff(data[..i]) + StuffByte(data[i]) && |Stuff(data[..i + 1])| <= |Stuff(data)|
  {
    hide StuffByte;
    assert data[..i + 1][..i] == data[..i];
    StuffPrefix(data, i + 1);
  }

  lemma {:induction false} StuffPrefix(data: seq<Byte>, i: nat)
    requires i <= |data|
    ensures |Stuff(data[..i])| <= |Stuff(data)|
  {
    if i < |data| {
      StuffPrefix(data[..|data| - 1], i);
      assert data[..|data| - 1][..i] == data[..i];
    } else {
      assert data[..i] == data;
    }
  }
}
