/**
 Incremental MD5 (md5.c): a context that takes the message in pieces of any size, against the
 one-shot definition in sections 3.1 to 3.5 of RFC 1321.
 */
module Md5 {
  import opened Md5Block
  import opened Word32
  import opened Bytes
  import opened Arith

  // ---------------------------------------------------------------------------------------
  // RFC 1321

  const INITIAL := State(W(0x67452301), W(0xefcdab89), W(0x98badcfe), W(0x10325476))

  const TWO29 := 0x2000_0000
  const TWO32 := 0x1_0000_0000
  const TWO61 := 0x2000_0000_0000_0000
  const TWO64 := 0x1_0000_0000_0000_0000

  /** The state after all complete blocks of the data. */
  function Fold(s: State, data: seq<Byte>): State
    decreases |data|
  {
    if |data| < 64 then s else Fold(Compress(s, data[..64]), data[64..])
  }

  /** What is left after the complete blocks. */
  function Rest(data: seq<Byte>): (rest: seq<Byte>)
    ensures |rest| < 64
    decreases |data|
  {
    if |data| < 64 then data else Rest(data[64..])
  }

  function Octet(n: nat): Byte {
    (n % 256) as Byte
  }

  /** A 32-bit number, the low-order byte first. */
  function Le32(n: nat): (s: seq<Byte>)
    ensures |s| == 4
  {
    [Octet(n), Octet(n / 0x100), Octet(n / 0x1_0000), Octet(n / 0x100_0000)]
  }

  /** A 64-bit number, the low-order word first. */
  function Le64(n: nat): (s: seq<Byte>)
    ensures |s| == 8
  {
    Le32(n % TWO32) + Le32(n / TWO32)
  }

  function Zeros(n: nat): (s: seq<Byte>)
    ensures |s| == n && forall i | 0 <= i < n :: s[i] == 0
  {
    seq(n, _ => 0)
  }

  /** How many zeros bring a message of n bytes, after the byte 0x80, to 56 modulo 64. */
  function PadZeros(n: nat): nat {
    if n % 64 < 56 then 55 - n % 64 else 119 - n % 64
  }

  function Padding(n: nat): seq<Byte> {
    [0x80] + Zeros(PadZeros(n)) + Le64(8 * n % TWO64)
  }

  function WordBytes(w: Word): (s: seq<Byte>)
    ensures |s| == 4
  {
    BytesOf(w.bits)
  }

  function Output(s: State): seq<Byte> {
    WordBytes(s.a) + WordBytes(s.b) + WordBytes(s.c) + WordBytes(s.d)
  }

  /** The digest of a message. */
  function Digest(message: seq<Byte>): seq<Byte> {
    Output(Fold(INITIAL, message + Padding(|message|)))
  }

  // ---------------------------------------------------------------------------------------

  lemma OctetValue(n: nat)
    ensures Octet(n) as nat == n % 0x100
  {
    ByteOf(n % 0x100);
  }

  /** The number that the four bytes stand for. */
  lemma Le32Value(n: nat)
    requires n < TWO32
    ensures
      var s := Le32(n);
      s[0] as nat + 0x100 * s[1] as nat + 0x1_0000 * s[2] as nat + 0x100_0000 * s[3] as nat == n
  {
    hide Octet;
    OctetValue(n);
    OctetValue(n / 0x100);
    OctetValue(n / 0x1_0000);
    OctetValue(n / 0x100_0000);
    FourDigits(n);
  }

  lemma FourDigits(n: nat)
    requires n < TWO32
    ensures
      n % 0x100 + 0x100 * (n / 0x100 % 0x100) + 0x1_0000 * (n / 0x1_0000 % 0x100)
        + 0x100_0000 * (n / 0x100_0000 % 0x100) == n
  {
    var a, r := DivParts(n, 0x100);
    var b, s := DivParts(a, 0x100);
    var c, t := DivParts(b, 0x100);
    DivUnique(n, 0x1_0000, b, 0x100 * s + r);
    DivUnique(n, 0x100_0000, c, 0x1_0000 * t + 0x100 * s + r);
    DivUnique(c, 0x100, 0, c);
  }

  /** A number written as four bytes is read back as a word. */
  lemma LoadLe32(n: nat)
    requires n < TWO32
    ensures Load(Le32(n), 0).bits as nat == n
  {
    hide Le32, Load;
    Le32Value(n);
    LoadValue(Le32(n), 0);
  }

  lemma OnlyOctet(n: nat, b: Byte)
    requires ByteNumber(b) == n % 0x100
    ensures Octet(n) == b
  {
    OnlyByte(n % 0x100, b);
    hide ByteNumber;
  }

  lemma DivTwice(n: nat, m: nat)
    requires m > 0
    ensures n / m / 0x100 == n / (m * 0x100)
  {
    var q, r := DivParts(n, m);
    var p, t := DivParts(q, 0x100);
    assert m * (0x100 * p + t) + r == m * 0x100 * p + (m * t + r);
    MulMono(m, t + 1, 0x100);
    DivUnique(n, m * 0x100, p, m * t + r);
  }

  /** The padding is the byte 0x80, zeros, and the length in bits as two words, the low-order one first. */
  lemma PaddingValue(n: nat)
    ensures
      var p := Padding(n);
      var length := p[|p| - 8..];
      && p[0] == 0x80 && (forall i | 1 <= i < |p| - 8 :: p[i] == 0)
      && Load(length, 0).bits as nat + TWO32 * Load(length, 1).bits as nat == 8 * n % TWO64
  {
    hide Le32, Load, Zeros;
    var m := 8 * n % TWO64;
    var p, lo, hi := Padding(n), Le32(m % TWO32), Le32(m / TWO32);
    assert p[|p| - 8..] == lo + hi;
    LoadValue(lo + hi, 0);
    LoadValue(lo + hi, 1);
    Le32Value(m % TWO32);
    Le32Value(m / TWO32);
  }

  /** The bytes of a word are those of its number. */
  lemma WordBytesValue(w: Word)
    ensures WordBytes(w) == Le32(w.bits as nat)
  {
    NumberBytes(w.bits);
    BytesAre(w.bits);
    hide Le32, BytesOf, LowByte, Above;
  }

  lemma NumberBytes(w: bv32)
    ensures
      var one := Above(w);
      Le32(Number(w)) == [LowByte(w), LowByte(one), LowByte(Above(one)), LowByte(Above(Above(one)))]
  {
    hide LowByte, Number, ByteNumber, Above, Octet;
    var n, one := Number(w), Above(w);
    LowByteNumber(w);
    LowByteNumber(one);
    LowByteNumber(Above(one));
    LowByteNumber(Above(Above(one)));
    DivTwice(n, 0x100);
    DivTwice(n, 0x1_0000);
    OnlyOctet(n, LowByte(w));
    OnlyOctet(n / 0x100, LowByte(one));
    OnlyOctet(n / 0x1_0000, LowByte(Above(one)));
    OnlyOctet(n / 0x100_0000, LowByte(Above(Above(one))));
  }

  /** The digest of the empty state is the listing in section 3.3 of RFC 1321. */
  lemma InitialBytes()
    ensures Output(INITIAL) == [0x01, 0x23, 0x45, 0x67, 0x89, 0xab, 0xcd, 0xef,
                                0xfe, 0xdc, 0xba, 0x98, 0x76, 0x54, 0x32, 0x10]
  {
  }

  /** The padding fills the last block, and is the shortest that does. */
  lemma PaddedIsWhole(n: nat)
    ensures (n + |Padding(n)|) % 64 == 0 && 9 <= |Padding(n)| < 73
  {
    hide Le64, Zeros;
    var q, r := DivParts(n, 64);
    DivUnique(n + |Padding(n)|, 64, if r < 56 then q + 1 else q + 2, 0);
  }

  /** Only the unfinished block of what went before matters for what follows. */
  lemma {:induction false} FoldAppend(s: State, message: seq<Byte>, data: seq<Byte>)
    ensures Fold(s, message + data) == Fold(Fold(s, message), Rest(message) + data)
    ensures Rest(message + data) == Rest(Rest(message) + data)
    decreases |message|
  {
    if |message| >= 64 {
      assert (message + data)[..64] == message[..64] && (message + data)[64..] == message[64..] + data;
      FoldAppend(Compress(s, message[..64]), message[64..], data);
    }
  }

  lemma {:induction false} RestLength(data: seq<Byte>)
    ensures |Rest(data)| == |data| % 64 && |Rest(data)| <= |data| && Rest(data) == data[|data| - |Rest(data)|..]
    decreases |data|
  {
    if |data| >= 64 {
      RestLength(data[64..]);
    }
  }

  /** The complete blocks alone give the same state. */
  lemma {:induction false} FoldBlocks(s: State, data: seq<Byte>)
    ensures |Rest(data)| <= |data| && Fold(s, data) == Fold(s, data[..|data| - |Rest(data)|])
    ensures Rest(data[..|data| - |Rest(data)|]) == []
    decreases |data|
  {
    if |data| >= 64 {
      FoldBlocks(Compress(s, data[..64]), data[64..]);
      RestLength(data[64..]);
      var blocks := data[..|data| - |Rest(data)|];
      assert blocks[..64] == data[..64] && blocks[64..] == data[64..][..|data[64..]| - |Rest(data)|];
    }
  }

  /** The two counters hold the length in bytes, modulo 2^61. */
  ghost predicate Counts(n: nat, lo: nat, hi: nat) {
    lo < TWO29 && hi < TWO32 && hi * TWO29 + lo == n % TWO61
  }

  /** The carry from the low counter is seen by the sum being smaller than before. */
  lemma CountMore(n: nat, lo: nat, hi: nat, size: nat)
    requires Counts(n, lo, hi)
    ensures
      var lo' := (lo + size) % TWO29;
      Counts(n + size, lo', (hi + (if lo' < lo then 1 else 0) + size / TWO29) % TWO32)
  {
    var q, r := DivParts(n, TWO61);
    var p, t := DivParts(size, TWO29);
    var carry := if lo + t < TWO29 then 0 else 1;
    DivUnique(lo + size, TWO29, p + carry, lo + t - carry * TWO29);
    var k, hi' := DivParts(hi + carry + p, TWO32);
    DivUnique(n + size, TWO61, q + k, hi' * TWO29 + lo + t - carry * TWO29);
  }

  /** The length field of the padding, from the counters; and the fill of the buffer. */
  lemma LengthField(n: nat, lo: nat, hi: nat)
    requires Counts(n, lo, hi)
    ensures lo % 64 == n % 64
    ensures Le32(lo * 8 % TWO32) + Le32(hi) == Le64(8 * n % TWO64)
  {
    hide Le32;
    var q, r := DivParts(n, TWO61);
    DivUnique(8 * n, TWO64, q, 8 * r);
    DivUnique(8 * r, TWO32, hi, 8 * lo);
    DivUnique(8 * lo, TWO32, 0, 8 * lo);
    var p, u := DivParts(lo, 64);
    DivUnique(n, 64, q * (TWO61 / 64) + hi * (TWO29 / 64) + p, u);
  }

  /** A block that the pieces `rest` and `data` fill, and what remains of `data`. */
  lemma FirstBlock(s: State, rest: seq<Byte>, data: seq<Byte>, available: nat)
    requires |rest| + available == 64 && available <= |data|
    ensures Fold(s, rest + data) == Fold(Compress(s, rest + data[..available]), data[available..])
    ensures Rest(rest + data) == Rest(data[available..])
  {
    hide Compress;
    assert (rest + data)[..64] == rest + data[..available] && (rest + data)[64..] == data[available..];
  }

  lemma SmallData(s: State, data: seq<Byte>)
    requires |data| < 64
    ensures Fold(s, data) == s && Rest(data) == data
  {
  }

  lemma OneBlock(s: State, block: seq<Byte>)
    requires |block| == 64
    ensures Fold(s, block) == Compress(s, block) && Rest(block) == []
  {
    hide Compress;
    assert block[..64] == block && block[64..] == [];
  }

  lemma NoOperation(x: seq<Word>, s: State)
    requires |x| == 16
    ensures At(x, 0, s, s.a, s.b, s.c, s.d)
  {
  }

  lemma CountRest(message: seq<Byte>, lo: nat, hi: nat)
    requires Counts(|message|, lo, hi)
    ensures lo % 64 == |Rest(message)|
  {
    LengthField(|message|, lo, hi);
    RestLength(message);
    hide Le32, Rest;
  }

  /** What is left of the message and its padding: one block if the length still fits, else two. */
  lemma PaddedBlocks(s: State, rest: seq<Byte>, n: nat)
    requires |rest| == n % 64
    ensures
      var len := Le64(8 * n % TWO64);
      Fold(s, rest + Padding(n)) ==
        if |rest| < 56 then Compress(s, rest + [0x80] + Zeros(55 - |rest|) + len)
        else Compress(Compress(s, rest + [0x80] + Zeros(63 - |rest|)), Zeros(56) + len)
  {
    hide Compress, Le64;
    var len := Le64(8 * n % TWO64);
    if |rest| < 56 {
      assert rest + Padding(n) == rest + [0x80] + Zeros(55 - |rest|) + len;
      OneBlock(s, rest + Padding(n));
    } else {
      var first, second := rest + [0x80] + Zeros(63 - |rest|), Zeros(56) + len;
      assert rest + Padding(n) == first + second;
      FirstBlock(s, first, second, 0);
      assert first + second[..0] == first && second[0..] == second;
      OneBlock(Compress(s, first), second);
    }
  }

  class Context {
    var a: Word
    var b: Word
    var c: Word
    var d: Word
    var lo: nat
    var hi: nat
    const buffer: array<Byte>
    ghost var message: seq<Byte>      // everything hashed so far

    ghost predicate Valid()
      reads this, buffer
    {
      && buffer.Length == 64
      && Counts(|message|, lo, hi)
      && State(a, b, c, d) == Fold(INITIAL, message)
      && buffer[..|Rest(message)|] == Rest(message)
    }

    /** `md5_begin`. */
    constructor Begin()
      ensures Valid() && message == [] && fresh(buffer)
    {
      a, b, c, d := W(0x67452301), W(0xefcdab89), W(0x98badcfe), W(0x10325476);
      lo, hi := 0, 0;
      buffer := new Byte[64];
      message := [];
      new;
      assert buffer[..0] == [];
    }

    /** `body`: one or more complete blocks. */
    method Body(data: seq<Byte>)
      requires |data| >= 64 && Rest(data) == []
      modifies `a, `b, `c, `d
      ensures State(a, b, c, d) == Fold(old(State(a, b, c, d)), data)
    {
      hide Compress;
      ghost var start := State(a, b, c, d);
      var ptr := 0;
      while true
        invariant ptr + 64 <= |data| && Rest(data[ptr..]) == []
        invariant Fold(State(a, b, c, d), data[ptr..]) == Fold(start, data)
        decreases |data| - ptr
      {
        assert data[ptr..][..64] == data[ptr..ptr + 64] && data[ptr..][64..] == data[ptr + 64..];
        ghost var left := data[ptr + 64..];
        Block(data[ptr..ptr + 64]);
        ptr := ptr + 64;
        if |data| - ptr < 64 {
          assert left == [];
          return;
        }
      }
    }

    /** One turn of the loop in `body`. */
    method Block(block: seq<Byte>)
      requires |block| == 64
      modifies `a, `b, `c, `d
      ensures State(a, b, c, d) == Compress(old(State(a, b, c, d)), block)
    {
      hide Operations, Words, Add;
      var x := Words(block);
      var saved := State(a, b, c, d);
      NoOperation(x, saved);
      var a', b', c', d' := Round1(saved, x, a, b, c, d);
      a', b', c', d' := Round2(saved, x, a', b', c', d');
      a', b', c', d' := Round3(saved, x, a', b', c', d');
      a', b', c', d' := Round4(saved, x, a', b', c', d');
      a, b, c, d := Add(a', saved.a), Add(b', saved.b), Add(c', saved.c), Add(d', saved.d);
    }

    /** Copies `data` into the buffer, behind `used` bytes. */
    method Store(used: nat, data: seq<Byte>)
      requires buffer.Length == 64 && used + |data| <= 64
      modifies buffer
      ensures buffer[..] == old(buffer[..used]) + data + old(buffer[used + |data|..])
    {
      forall i | 0 <= i < |data| {
        buffer[used + i] := data[i];
      }
    }

    /** `md5_hash`: the next piece of the message, of any size. */
    method Hash(data: seq<Byte>)
      requires Valid()
      modifies this, buffer
      ensures Valid() && message == old(message) + data
    {
      hide Fold, Rest, Counts, Compress;
      ghost var before := message;
      CountMore(|before|, lo, hi, |data|);
      CountRest(before, lo, hi);
      FoldAppend(INITIAL, before, data);
      var savedLo := lo;
      lo := (savedLo + |data|) % TWO29;
      hi := (hi + (if lo < savedLo then 1 else 0) + |data| / TWO29) % TWO32;
      message := before + data;
      var used := savedLo % 64;
      var left := data;
      if used > 0 {
        var available := 64 - used;
        if |data| < available {
          SmallData(State(a, b, c, d), Rest(before) + data);
          Store(used, data);
          assert buffer[..used + |data|] == Rest(before) + data;
          return;
        }
        FirstBlock(State(a, b, c, d), Rest(before), data, available);
        Store(used, data[..available]);
        assert buffer[..] == Rest(before) + data[..available];
        left := data[available..];
        OneBlock(State(a, b, c, d), buffer[..]);
        Body(buffer[..]);
      } else {
        assert Rest(before) + data == data;
      }
      Finish(left);
    }

    /** The last part of `md5_hash`: the complete blocks are taken from `data` itself, the rest is kept. */
    method Finish(data: seq<Byte>)
      requires buffer.Length == 64
      modifies `a, `b, `c, `d, buffer
      ensures State(a, b, c, d) == Fold(old(State(a, b, c, d)), data)
      ensures buffer[..|Rest(data)|] == Rest(data)
    {
      hide Compress;
      RestLength(data);
      FoldBlocks(State(a, b, c, d), data);
      hide Fold, Rest;
      var left := data;
      if |data| >= 64 {
        var whole := |data| - |data| % 64;
        Body(data[..whole]);
        left := data[whole..];
      } else {
        SmallData(State(a, b, c, d), data);
      }
      Store(0, left);
    }

    /** `md5_end`: pads the message, gives the digest, and clears the context. */
    method End() returns (result: seq<Byte>)
      requires Valid()
      modifies this, buffer
      ensures result == Digest(old(message))
      ensures State(a, b, c, d) == State(W(0), W(0), W(0), W(0)) && lo == hi == 0 && buffer[..] == Zeros(64)
    {
      hide Fold, Rest, Counts, Compress, Le32, Le64, Zeros, Output;
      ghost var n, rest, start := |message|, Rest(message), State(a, b, c, d);
      CountRest(message, lo, hi);
      RestLength(message);
      LengthField(n, lo, hi);
      FoldAppend(INITIAL, message, Padding(n));
      PaddedBlocks(start, rest, n);
      ghost var len := Le64(8 * n % TWO64);

      var used := lo % 64;
      Store(used, [0x80]);
      used := used + 1;
      assert buffer[..used] == rest + [0x80];
      var available := 64 - used;
      if available < 8 {
        Store(used, Zeros(available));
        assert buffer[..] == rest + [0x80] + Zeros(available);
        OneBlock(start, buffer[..]);
        Body(buffer[..]);
        used := 0;
        available := 64;
        assert buffer[..used] + Zeros(56) == Zeros(56);
      }
      ghost var before, middle := buffer[..used], State(a, b, c, d);
      Store(used, Zeros(available - 8));
      lo := lo * 8 % TWO32;
      Store(56, Le32(lo));
      Store(60, Le32(hi));
      assert buffer[..] == before + Zeros(available - 8) + (Le32(lo) + Le32(hi));
      OneBlock(middle, buffer[..]);
      Body(buffer[..]);
      result := Output(State(a, b, c, d));
      Clear();
    }

    /** The context is overwritten with zeros. */
    method Clear()
      requires buffer.Length == 64
      modifies this, buffer
      ensures State(a, b, c, d) == State(W(0), W(0), W(0), W(0)) && lo == hi == 0 && buffer[..] == Zeros(64)
    {
      a, b, c, d, lo, hi := W(0), W(0), W(0), W(0), 0, 0;
      forall i | 0 <= i < 64 {
        buffer[i] := 0;
      }
    }
  }

  /** `md5sum`: reads a file in pieces, the last of them empty. */
  method Md5Sum(file: seq<Byte>) returns (digest: seq<Byte>, ret: nat)
    ensures digest == Digest(file) && ret == |file|
  {
    hide Digest;
    var ctx := new Context.Begin();
    ret := 0;
    while true
      invariant fresh(ctx) && fresh(ctx.buffer) && ctx.Valid()
      invariant ret <= |file| && ctx.message == file[..ret]
      decreases |file| - ret
    {
      // `fread` fills the buffer unless the file ends first
      var len := if |file| - ret < 256 then |file| - ret else 256;
      if len == 0 {
        break;
      }
      assert file[..ret + len] == file[..ret] + file[ret..ret + len];
      ctx.Hash(file[ret..ret + len]);
      ret := ret + len;
    }
    assert file[..ret] == file;
    digest := ctx.End();
  }

  lemma FlattenFirst(pieces: seq<seq<Byte>>, i: nat)
    requires i < |pieces|
    ensures Flatten(pieces[i..]) == pieces[i] + Flatten(pieces[i + 1..])
  {
    assert pieces[i..][1..] == pieces[i + 1..];
  }

  lemma FlattenNone(pieces: seq<seq<Byte>>)
    requires pieces == []
    ensures Flatten(pieces) == []
  {
  }

  /** Any way of cutting a message into pieces gives the digest of the whole message. */
  method HashPieces(pieces: seq<seq<Byte>>) returns (digest: seq<Byte>)
    ensures digest == Digest(Flatten(pieces))
  {
    hide *;
    var ctx := new Context.Begin();
    assert pieces[0..] == pieces && [] + Flatten(pieces) == Flatten(pieces);
    for i := 0 to |pieces|
      invariant fresh(ctx) && fresh(ctx.buffer) && ctx.Valid()
      invariant ctx.message + Flatten(pieces[i..]) == Flatten(pieces)
    {
      ghost var message := ctx.message;
      ctx.Hash(pieces[i]);
      FlattenFirst(pieces, i);
      assert ctx.message + Flatten(pieces[i + 1..]) == message + Flatten(pieces[i..]);
    }
    FlattenNone(pieces[|pieces|..]);
    assert ctx.message + [] == ctx.message;
    digest := ctx.End();
  }
}
