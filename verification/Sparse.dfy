/**
 Programming an Android sparse image with Firehose (firehose_protocol.c): a first pass compresses
 the chunk list into alternating runs, a second one derives from their sums where each data run
 lies in the file and where it belongs on the flash, and a third one streams it.
 */
module Sparse {
  import opened Arith
  import opened Bytes

  const FILE_HEADER := 28
  const CHUNK_HEADER := 12
  const BLOCK := 4096
  const SECTOR := 512
  const RAW := 0xCAC1
  const FILL := 0xCAC2
  const DONT_CARE := 0xCAC3
  const TWO32 := 0x1_0000_0000

  /** Little-endian fields of the file. */
  function Le16(s: seq<byte>, at: nat): nat
    requires at + 2 <= |s|
  {
    U16(s[at + 1], s[at])
  }

  function Le32(s: seq<byte>, at: nat): nat
    requires at + 4 <= |s|
  {
    Le16(s, at) + 0x1_0000 * Le16(s, at + 2)
  }

  datatype Chunk = Raw(blocks: nat, data: seq<byte>) | DontCare(blocks: nat) {
    predicate Valid() {
      Raw? ==> |data| == BLOCK * blocks
    }

    function Data(): seq<byte> {
      if Raw? then data else []
    }

    /** The bytes the chunk takes in the file. */
    function Size(): nat {
      CHUNK_HEADER + |Data()|
    }
  }

  function Span(cs: seq<Chunk>): nat {
    if cs == [] then 0 else cs[0].Size() + Span(cs[1..])
  }

  function Blocks(cs: seq<Chunk>): nat {
    if cs == [] then 0 else cs[0].blocks + Blocks(cs[1..])
  }

  function Data(cs: seq<Chunk>): seq<byte> {
    if cs == [] then [] else cs[0].Data() + Data(cs[1..])
  }

  lemma {:induction false} Sums(a: seq<Chunk>, b: seq<Chunk>)
    ensures Span(a + b) == Span(a) + Span(b)
    ensures Blocks(a + b) == Blocks(a) + Blocks(b)
    ensures Data(a + b) == Data(a) + Data(b)
  {
    if a == [] {
      assert a + b == b;
    } else {
      var c := a + b;
      assert c[0] == a[0] && c[1..] == a[1..] + b;
      Sums(a[1..], b);
      SumsFirst(a);
      SumsFirst(c);
      hide Span, Blocks, Data;
      assert a[0].Data() + (Data(a[1..]) + Data(b)) == (a[0].Data() + Data(a[1..])) + Data(b);
    }
  }

  lemma SumsFirst(cs: seq<Chunk>)
    requires cs != []
    ensures Span(cs) == cs[0].Size() + Span(cs[1..])
    ensures Blocks(cs) == cs[0].blocks + Blocks(cs[1..])
    ensures Data(cs) == cs[0].Data() + Data(cs[1..])
  {
  }

  lemma SumsSnoc(a: seq<Chunk>, c: Chunk)
    ensures Span(a + [c]) == Span(a) + c.Size()
    ensures Blocks(a + [c]) == Blocks(a) + c.blocks
    ensures Data(a + [c]) == Data(a) + c.Data()
  {
    Sums(a, [c]);
    assert Span([c]) == c.Size() + Span([]) && Blocks([c]) == c.blocks + Blocks([]);
    assert Data([c]) == c.Data() + Data([]);
  }

  lemma PrefixSums(cs: seq<Chunk>, k: nat)
    requires k < |cs|
    ensures Span(cs[..k + 1]) == Span(cs[..k]) + cs[k].Size()
    ensures Blocks(cs[..k + 1]) == Blocks(cs[..k]) + cs[k].blocks
    ensures Data(cs[..k + 1]) == Data(cs[..k]) + cs[k].Data()
    ensures cs[..k + 1] == cs[..k] + [cs[k]]
  {
    hide Span, Blocks, Data;
    assert cs[..k + 1] == cs[..k] + [cs[k]];
    SumsSnoc(cs[..k], cs[k]);
  }

  /** The file holds this chunk at `at`. */
  predicate HoldsChunk(file: seq<byte>, at: nat, c: Chunk) {
    && at + c.Size() <= |file|
    && Le16(file, at) == (if c.Raw? then RAW else DONT_CARE)
    && Le32(file, at + 4) == c.blocks
    && Le32(file, at + 8) == c.Size()
    && file[at + CHUNK_HEADER..at + c.Size()] == c.Data()
  }

  /** A sparse image file of raw and don't-care chunks. */
  predicate IsImage(file: seq<byte>, cs: seq<Chunk>) {
    && |file| >= FILE_HEADER
    && Le16(file, 8) == FILE_HEADER
    && Le32(file, 20) == |cs|
    && (forall k | 0 <= k < |cs| :: cs[k].Valid() && HoldsChunk(file, FILE_HEADER + Span(cs[..k]), cs[k]))
  }

  // ---------------------------------------------------------------------------------------
  // What a sparse image means

  /** The flash after the chunks have been expanded onto it from byte `at` on. */
  function Unsparse(flash: seq<byte>, at: nat, cs: seq<Chunk>): (r: seq<byte>)
    requires Fits(|flash|, at, cs)
    ensures |r| == |flash|
    decreases |cs|
  {
    if cs == [] then flash
    else
      var next := at + BLOCK * cs[0].blocks;
      assert cs[0].Valid();
      Unsparse(Expanded(flash, at, cs[0]), next, cs[1..])
  }

  predicate AllValid(cs: seq<Chunk>) {
    forall k | 0 <= k < |cs| :: cs[k].Valid()
  }

  /** The chunks fit on a flash of this size from byte `at` on. */
  predicate Fits(size: nat, at: nat, cs: seq<Chunk>) {
    AllValid(cs) && at + BLOCK * Blocks(cs) <= size
  }

  /** The flash after one chunk. */
  function Expanded(flash: seq<byte>, at: nat, c: Chunk): (r: seq<byte>)
    requires c.Valid() && at + BLOCK * c.blocks <= |flash|
    ensures |r| == |flash|
  {
    if c.Raw? then Overwrite(flash, at, c.data) else flash
  }

  lemma UnsparseFirst(flash: seq<byte>, at: nat, cs: seq<Chunk>)
    requires cs != [] && Fits(|flash|, at, cs)
    ensures cs[0].Valid() && at + BLOCK * cs[0].blocks <= |flash|
    ensures Fits(|flash|, at + BLOCK * cs[0].blocks, cs[1..])
    ensures Blocks(cs) == cs[0].blocks + Blocks(cs[1..])
    ensures Unsparse(flash, at, cs)
            == Unsparse(Expanded(flash, at, cs[0]), at + BLOCK * cs[0].blocks, cs[1..])
  {
    hide Overwrite;
  }

  lemma FitsAppend(flash: seq<byte>, at: nat, a: seq<Chunk>, b: seq<Chunk>)
    requires Fits(|flash|, at, a) && Fits(|flash|, at + BLOCK * Blocks(a), b)
    ensures Fits(|flash|, at, a + b) && Blocks(a + b) == Blocks(a) + Blocks(b)
  {
    Sums(a, b);
    hide Blocks;
  }

  lemma {:induction false} UnsparseAppend(flash: seq<byte>, at: nat, a: seq<Chunk>, b: seq<Chunk>)
    requires Fits(|flash|, at, a) && Fits(|flash|, at + BLOCK * Blocks(a), b)
    ensures Fits(|flash|, at, a + b) && Blocks(a + b) == Blocks(a) + Blocks(b)
    ensures Unsparse(flash, at, a + b) == Unsparse(Unsparse(flash, at, a), at + BLOCK * Blocks(a), b)
    decreases |a|
  {
    hide Blocks, Unsparse, Fits, AllValid, Expanded;
    FitsAppend(flash, at, a, b);
    if a == [] {
      UnsparseNone(flash, at, a);
      assert a + b == b;
    } else {
      UnsparseFirst(flash, at, a);
      UnsparseFirst(flash, at, a + b);
      assert (a + b)[1..] == a[1..] + b && (a + b)[0] == a[0];
      UnsparseAppend(Expanded(flash, at, a[0]), at + BLOCK * a[0].blocks, a[1..], b);
    }
  }

  lemma UnsparseNone(flash: seq<byte>, at: nat, cs: seq<Chunk>)
    requires cs == []
    ensures Fits(|flash|, at, cs) <==> at <= |flash|
    ensures at <= |flash| ==> Unsparse(flash, at, cs) == flash
    ensures Blocks(cs) == 0
  {
  }

  /** Don't-care chunks leave the flash alone. */
  lemma {:induction false} UnsparseGap(flash: seq<byte>, at: nat, cs: seq<Chunk>)
    requires at + BLOCK * Blocks(cs) <= |flash| && forall k | 0 <= k < |cs| :: cs[k].DontCare?
    ensures Unsparse(flash, at, cs) == flash
    decreases |cs|
  {
    if cs != [] {
      UnsparseGap(flash, at + BLOCK * cs[0].blocks, cs[1..]);
    }
  }

  lemma OverwriteJoin(flash: seq<byte>, at: nat, a: seq<byte>, b: seq<byte>)
    requires at + |a| + |b| <= |flash|
    ensures Overwrite(Overwrite(flash, at, a), at + |a|, b) == Overwrite(flash, at, a + b)
  {
  }

  /** A run of raw chunks is one contiguous write. */
  lemma {:induction false} UnsparseRun(flash: seq<byte>, at: nat, cs: seq<Chunk>)
    requires Fits(|flash|, at, cs) && forall k | 0 <= k < |cs| :: cs[k].Raw?
    ensures |Data(cs)| == BLOCK * Blocks(cs)
    ensures Unsparse(flash, at, cs) == Overwrite(flash, at, Data(cs))
    decreases |cs|
  {
    assert Overwrite(flash, at, []) == flash;
    hide Overwrite;
    if cs != [] {
      assert cs[0].Valid() && cs[0].Raw?;
      var d := cs[0].data;
      UnsparseRun(Overwrite(flash, at, d), at + |d|, cs[1..]);
      OverwriteJoin(flash, at, d, Data(cs[1..]));
    }
  }

  /** The byte that the image defines at offset `x`, if any. */
  function ByteAt(cs: seq<Chunk>, x: int): Option<byte>
    requires AllValid(cs)
  {
    if cs == [] || x < 0 then None
    else if x < 4096 * cs[0].blocks then
      assert cs[0].Valid();
      if cs[0].Raw? then Some(cs[0].data[x]) else None
    else ByteAt(cs[1..], x - 4096 * cs[0].blocks)
  }

  /**
   Byte by byte: a raw block's bytes appear at their un-sparsed position, and every other byte,
   in don't-care blocks and outside the image, keeps its value.
   */
  lemma {:induction false} UnsparseByte(flash: seq<byte>, at: nat, cs: seq<Chunk>, x: nat)
    requires Fits(|flash|, at, cs) && x < |flash|
    ensures Unsparse(flash, at, cs)[x] == match ByteAt(cs, x - at) case Some(b) => b case None => flash[x]
    decreases |cs|
  {
    if cs == [] {
      UnsparseNone(flash, at, cs);
    } else {
      hide Blocks, Unsparse;
      UnsparseFirst(flash, at, cs);
      UnsparseByte(Expanded(flash, at, cs[0]), at + BLOCK * cs[0].blocks, cs[1..], x);
    }
  }

  // ---------------------------------------------------------------------------------------
  // Files that hold an image, byte by byte

  /** A 32-bit field, the low byte first. */
  function Quad(n: nat): (s: seq<byte>)
    requires n < TWO32
    ensures |s| == 4
  {
    [n % 256, n / 0x100 % 256, n / 0x1_0000 % 256, n / 0x100_0000]
  }

  predicate Writable(c: Chunk) {
    c.Valid() && c.blocks < TWO32 && c.Size() < TWO32
  }

  predicate AllWritable(cs: seq<Chunk>) {
    |cs| < TWO32 && Blocks(cs) < TWO32 && forall k | 0 <= k < |cs| :: Writable(cs[k])
  }

  /** Type 0xCAC1 or 0xCAC3, two reserved bytes, the size in blocks, the size with the header, the data. */
  function ChunkBytes(c: Chunk): (s: seq<byte>)
    requires Writable(c)
    ensures |s| == c.Size()
  {
    [if c.Raw? then 0xc1 else 0xc3, 0xca, 0, 0] + Quad(c.blocks) + Quad(c.Size()) + c.Data()
  }

  function ChunksBytes(cs: seq<Chunk>): seq<byte>
    requires forall k | 0 <= k < |cs| :: Writable(cs[k])
  {
    if cs == [] then [] else ChunkBytes(cs[0]) + ChunksBytes(cs[1..])
  }

  /** Magic number, version 1.0, the two header sizes, blocks of 4096 bytes, the two counts, no checksum. */
  function FileHeader(cs: seq<Chunk>): (s: seq<byte>)
    requires AllWritable(cs)
    ensures |s| == 28
  {
    [0x3a, 0xff, 0x26, 0xed, 1, 0, 0, 0, 28, 0, 12, 0, 0, 0x10, 0, 0] + Quad(Blocks(cs)) + Quad(|cs|) + [0, 0, 0, 0]
  }

  lemma QuadValue(n: nat, s: seq<byte>, at: nat)
    requires n < TWO32 && at + 4 <= |s| && s[at..at + 4] == Quad(n)
    ensures Le32(s, at) == n
  {
    var a, r := DivParts(n, 0x100);
    var b, q := DivParts(a, 0x100);
    var c, p := DivParts(b, 0x100);
    DivUnique(n, 0x1_0000, b, 0x100 * q + r);
    DivUnique(n, 0x100_0000, c, 0x1_0000 * p + 0x100 * q + r);
    var t := s[at..at + 4];
    assert t[0] == s[at] && t[1] == s[at + 1] && t[2] == s[at + 2] && t[3] == s[at + 3];
  }

  lemma ChunkHeld(before: seq<byte>, c: Chunk, rest: seq<byte>)
    requires Writable(c)
    ensures HoldsChunk(before + ChunkBytes(c) + rest, |before|, c)
  {
    hide Quad, Le32, Chunk.Data;
    var file, at := before + ChunkBytes(c) + rest, |before|;
    assert file[at..at + c.Size()] == ChunkBytes(c);
    ChunkParts(c);
    var bytes := ChunkBytes(c);
    assert file[at] == bytes[0] && file[at + 1] == bytes[1];
    assert file[at + 4..at + 8] == bytes[4..8] && file[at + 8..at + 12] == bytes[8..12];
    assert file[at + 12..at + c.Size()] == bytes[12..];
    QuadValue(c.blocks, file, at + 4);
    QuadValue(c.Size(), file, at + 8);
  }

  lemma ChunkParts(c: Chunk)
    requires Writable(c)
    ensures
      var s := ChunkBytes(c);
      && s[0] == (if c.Raw? then 0xc1 else 0xc3) && s[1] == 0xca
      && s[4..8] == Quad(c.blocks) && s[8..12] == Quad(c.Size()) && s[12..] == c.Data()
  {
    hide Quad, Chunk.Data;
  }

  lemma {:induction false} ChunksHeld(before: seq<byte>, cs: seq<Chunk>, k: nat)
    requires (forall j | 0 <= j < |cs| :: Writable(cs[j])) && k < |cs|
    ensures HoldsChunk(before + ChunksBytes(cs), |before| + Span(cs[..k]), cs[k])
    decreases k
  {
    hide HoldsChunk, ChunkBytes, Writable;
    var first, rest := ChunkBytes(cs[0]), ChunksBytes(cs[1..]);
    assert before + ChunksBytes(cs) == before + first + rest;
    if k == 0 {
      ChunkHeld(before, cs[0], rest);
      assert cs[..0] == [];
    } else {
      ChunksHeld(before + first, cs[1..], k - 1);
      assert cs[..k][1..] == cs[1..][..k - 1];
      SumsFirst(cs[..k]);
    }
  }

  /** A header and the chunks behind it are an image of them; so each list of chunks that fits the fields has one. */
  lemma HeaderAndChunks(cs: seq<Chunk>)
    requires AllWritable(cs)
    ensures IsImage(FileHeader(cs) + ChunksBytes(cs), cs)
  {
    hide HoldsChunk, ChunksBytes, Span, Blocks, Quad, Le32;
    var header, chunks := FileHeader(cs), ChunksBytes(cs);
    var file := header + chunks;
    assert file[8] == header[8] && file[9] == header[9];
    assert file[20..24] == header[20..24] == Quad(|cs|);
    QuadValue(|cs|, file, 20);
    forall k | 0 <= k < |cs|
      ensures cs[k].Valid() && HoldsChunk(file, FILE_HEADER + Span(cs[..k]), cs[k])
    {
      assert Writable(cs[k]);
      ChunksHeld(header, cs, k);
    }
  }
}
