/**
 Where the second pass of sparse programming (firehose_protocol.c, `fh_process_program`) looks for a
 data run in the file and puts it on the flash, from the tables as they are stored: exactly when all
 runs are placed right, and what goes wrong otherwise.
 */
module Placement {
  import opened Arith
  import opened Sparse
  import opened Runs
  import opened Firehose

  /** The file offset that is computed for data run `i`. */
  function Offset(table: seq<Sums>, i: nat): nat
    requires |table| == 2 * ENTRIES && i <= ENTRIES
  {
    if i == 0 then FILE_HEADER
    else Wrap32(Offset(table, i - 1) + table[i - 1].bytes + table[i - 1].count * CHUNK_HEADER
                + table[ENTRIES + i - 1].count * CHUNK_HEADER)
  }

  /** The start sector that is computed for data run `i`. */
  function Sector(table: seq<Sums>, base: nat, i: nat): nat
    requires |table| == 2 * ENTRIES && i <= ENTRIES
  {
    if i == 0 then base
    else Wrap32(Sector(table, base, i - 1) + NumSectors(table[i - 1].bytes, SECTOR)
                + table[ENTRIES + i - 1].blocks * 8)
  }

  /** Data run `i` is the run 2 i: it is looked for and put where it belongs. */
  predicate Placed(table: seq<Sums>, runs: seq<Run>, base: nat, i: nat)
    requires |table| == 2 * ENTRIES && i <= ENTRIES && 2 * i <= |runs|
  {
    && Offset(table, i) == FILE_HEADER + Span(AllChunks(runs[..2 * i]))
    && Sector(table, base, i) == base + 8 * Blocks(AllChunks(runs[..2 * i]))
  }

  ghost predicate AllPlaced(table: seq<Sums>, runs: seq<Run>, base: nat)
    requires |table| == 2 * ENTRIES && |runs| <= 2 * ENTRIES + 1
  {
    forall i: nat | 2 * i < |runs| :: Placed(table, runs, base, i)
  }

  /** An image whose first chunk is raw, within the 32-bit bounds of offsets and sectors. */
  ghost predicate Programmable(cs: seq<Chunk>, base: nat) {
    && AllValid(cs) && (cs != [] ==> cs[0].Raw?)
    && FILE_HEADER + Span(cs) < TWO32 && base + 8 * Blocks(cs) < TWO32
  }

  /** What the scan leaves behind for an image. */
  ghost predicate Tabled(cs: seq<Chunk>, table: seq<Sums>) {
    var runs := Kept(MaximalRuns(cs));
    Recorded(table, Table(runs, true), Table(runs, false))
  }

  // ---------------------------------------------------------------------------------------
  // Data runs and gaps take turns

  lemma {:induction false} TakingTurns(runs: seq<Run>, i: nat)
    requires Alternate(runs) && (runs != [] ==> runs[0].raw) && 2 * i <= |runs|
    ensures |Table(runs[..2 * i], true)| == i && |Table(runs[..2 * i], false)| == i
    ensures 2 * i < |runs| ==> runs[2 * i].raw && runs[2 * i].Valid()
    ensures 2 * i + 1 < |runs| ==> !runs[2 * i + 1].raw && runs[2 * i + 1].Valid()
  {
    hide Table, Alternate, Run.Valid, Run.Sum;
    if i == 0 {
      NothingBefore(runs);
    } else {
      TakingTurns(runs, i - 1);
      TableAt(runs, 2 * i - 2);
      TableAt(runs, 2 * i - 1);
      AlternateAt(runs, 2 * i - 1);
    }
    if 2 * i < |runs| {
      AlternateAt(runs, 2 * i);
    }
    if 2 * i + 1 < |runs| {
      AlternateAt(runs, 2 * i + 1);
    }
  }

  /** Entry i of either table. */
  lemma Entry(runs: seq<Run>, i: nat)
    requires Alternate(runs) && (runs != [] ==> runs[0].raw)
    ensures 2 * i < |runs| ==> i < |Table(runs, true)| && Table(runs, true)[i] == runs[2 * i].Sum()
    ensures 2 * i + 1 < |runs| ==> i < |Table(runs, false)| && Table(runs, false)[i] == runs[2 * i + 1].Sum()
  {
    hide Table, Alternate, Run.Valid, Run.Sum;
    if 2 * i < |runs| {
      TakingTurns(runs, i);
      TableAt(runs, 2 * i);
    }
    if 2 * i + 1 < |runs| {
      TableAt(runs, 2 * i + 1);
    }
  }

  /** How long the tables are. */
  lemma Lengths(runs: seq<Run>)
    requires Alternate(runs) && runs != [] && runs[0].raw && runs[|runs| - 1].raw
    ensures |runs| == 2 * |Table(runs, true)| - 1 && |Table(runs, false)| == |Table(runs, true)| - 1
  {
    var q, r := DivParts(|runs|, 2);
    TakingTurns(runs, q);
    assert runs[..|runs|] == runs;
    hide Table, Alternate, Run.Valid, Run.Sum;
    if r == 0 {
      TakingTurns(runs, q - 1);
      assert false;
    } else {
      TableAt(runs, 2 * q);
    }
  }

  // ---------------------------------------------------------------------------------------
  // When all runs are placed right

  /** What the second pass reads for the step to data run `i` has the values of the runs in between. */
  predicate StepRight(table: seq<Sums>, runs: seq<Run>, i: nat)
    requires |table| == 2 * ENTRIES && 0 < i <= ENTRIES && 2 * i <= |runs|
  {
    var d, g := runs[2 * i - 2].Sum(), runs[2 * i - 1].Sum();
    && table[i - 1].count + table[ENTRIES + i - 1].count == d.count + g.count
    && table[ENTRIES + i - 1].blocks == g.blocks
  }

  /** Adding something to a value below the limit leaves it the same only if that is nothing. */
  lemma WrapIff(t: nat, x: int)
    requires t < TWO32 && -TWO32 < x < TWO32 && t + x >= 0
    ensures Wrap32(t + x) == t <==> x == 0
  {
    var q, r := DivParts(t + x, TWO32);
  }

  /** The facts about one step that do not depend on the table. */
  lemma TrueStep(cs: seq<Chunk>, runs: seq<Run>, base: nat, i: nat)
    requires Programmable(cs, base) && runs == Kept(MaximalRuns(cs)) && 0 < i && 2 * i < |runs|
    ensures
      var d, g := runs[2 * i - 2].Sum(), runs[2 * i - 1].Sum();
      && Span(AllChunks(runs[..2 * i])) ==
          Span(AllChunks(runs[..2 * i - 2])) + d.bytes + (d.count + g.count) * CHUNK_HEADER
      && Blocks(AllChunks(runs[..2 * i])) == Blocks(AllChunks(runs[..2 * i - 2])) + d.blocks + g.blocks
      && NumSectors(d.bytes, SECTOR) == 8 * d.blocks
      && FILE_HEADER + Span(AllChunks(runs[..2 * i])) < TWO32 && base + 8 * Blocks(AllChunks(runs[..2 * i])) < TWO32
  {
    hide Table, AllChunks, Span, Blocks, Data, NumSectors, Kept, MaximalRuns, Run.Valid, AllValid, Alternate;
    KeptScanned(cs);
    var data, gaps := Table(runs, true), Table(runs, false);
    var tail := cs[|AllChunks(runs)|..];
    FirstIsRaw(cs, data, gaps, runs, tail);
    TakingTurns(runs, i - 1);
    TakingTurns(runs, i);
    assert 2 * (i - 1) == 2 * i - 2 && 2 * (i - 1) + 1 == 2 * i - 1;
    NextOffset(runs, base, 2 * i - 1);
    RunSectors(cs, data, gaps, runs, tail, 2 * i - 2);
    PrefixFits(cs, data, gaps, runs, tail, 2 * i);
  }

  /** Nothing but a trailing don't-care run is missing from the recorded runs. */
  lemma KeptScanned(cs: seq<Chunk>)
    ensures
      var runs := Kept(MaximalRuns(cs));
      && |AllChunks(runs)| <= |cs|
      && Scanned(cs, Table(runs, true), Table(runs, false), runs, cs[|AllChunks(runs)|..])
  {
    hide MaximalRuns, Table, Alternate, AllChunks;
    MaximalAlternate(cs);
    var all := MaximalRuns(cs);
    var runs := Kept(all);
    if all != [] {
      var n := |all| - 1;
      AllChunksPrefix(all, n);
      assert all[..n + 1] == all;
      AlternateAt(all, n);
      if n > 0 {
        AlternateAt(all, n - 1);
      }
    }
    assert cs == AllChunks(runs) + cs[|AllChunks(runs)|..];
  }

  /** From a data run that is placed right, the next one is exactly if the step reads the right values. */
  lemma StepIff(cs: seq<Chunk>, table: seq<Sums>, runs: seq<Run>, base: nat, i: nat)
    requires Programmable(cs, base) && runs == Kept(MaximalRuns(cs)) && Tabled(cs, table)
    requires 0 < i && 2 * i < |runs| <= 2 * ENTRIES + 1 && |table| == 2 * ENTRIES && Placed(table, runs, base, i - 1)
    ensures Placed(table, runs, base, i) <==> StepRight(table, runs, i)
  {
    hide AllChunks, Span, Blocks, Data, NumSectors, Kept, MaximalRuns, Wrap32, Tabled, Programmable, Table, Run.Sum,
        DataRuns, Stored;
    TrueStep(cs, runs, base, i);
    Read(cs, table, runs, base, i);
    var d, g := runs[2 * i - 2].Sum(), runs[2 * i - 1].Sum();
    var offset, sector := FILE_HEADER + Span(AllChunks(runs[..2 * i])), base + 8 * Blocks(AllChunks(runs[..2 * i]));
    var counts := table[i - 1].count + table[ENTRIES + i - 1].count - d.count - g.count;
    var blocks := table[ENTRIES + i - 1].blocks - g.blocks;
    assert 2 * (i - 1) == 2 * i - 2;
    WrapIff(offset, CHUNK_HEADER * counts);
    WrapIff(sector, 8 * blocks);
    Computed(table, base, i);
  }

  lemma Computed(table: seq<Sums>, base: nat, i: nat)
    requires |table| == 2 * ENTRIES && 0 < i <= ENTRIES
    ensures Offset(table, i) == Wrap32(Offset(table, i - 1) + table[i - 1].bytes + table[i - 1].count * CHUNK_HEADER
                                       + table[ENTRIES + i - 1].count * CHUNK_HEADER)
    ensures Sector(table, base, i) == Wrap32(Sector(table, base, i - 1) + NumSectors(table[i - 1].bytes, SECTOR)
                                             + table[ENTRIES + i - 1].blocks * 8)
  {
  }

  /** What the entries can differ by. */
  lemma Read(cs: seq<Chunk>, table: seq<Sums>, runs: seq<Run>, base: nat, i: nat)
    requires Programmable(cs, base) && runs == Kept(MaximalRuns(cs)) && Tabled(cs, table)
    requires 0 < i && 2 * i < |runs| <= 2 * ENTRIES + 1 && |table| == 2 * ENTRIES
    ensures
      var d, g := runs[2 * i - 2].Sum(), runs[2 * i - 1].Sum();
      && table[i - 1].bytes == d.bytes && table[i - 1].count == d.count % COUNT_LIMIT
      && table[ENTRIES + i - 1].count < COUNT_LIMIT && 8 * table[ENTRIES + i - 1].blocks < TWO32
      && CHUNK_HEADER * (d.count + g.count) < TWO32 && 8 * g.blocks < TWO32
      && (ENTRIES + i - 1 >= DataRuns(cs) ==> table[ENTRIES + i - 1] == Stored(g))
  {
    hide AllChunks, Span, Blocks, Data, NumSectors, Kept, MaximalRuns, Wrap32, AllValid, Table, Run.Sum, Alternate;
    TrueStep(cs, runs, base, i);
    RecordedRight(cs, table, runs, i);
    KeptScanned(cs);
    var data, gaps := Table(runs, true), Table(runs, false);
    FirstIsRaw(cs, data, gaps, runs, cs[|AllChunks(runs)|..]);
    if ENTRIES + i - 1 < |data| {
      Lengths(runs);
      Entry(runs, ENTRIES);
      RunBounded(cs, runs, base, 2 * ENTRIES);
    }
  }

  lemma RunBounded(cs: seq<Chunk>, runs: seq<Run>, base: nat, k: nat)
    requires Programmable(cs, base) && runs == Kept(MaximalRuns(cs)) && k < |runs|
    ensures 8 * runs[k].Sum().blocks < TWO32
  {
    hide AllChunks, Span, Data, Kept, MaximalRuns, Table, Alternate, Blocks;
    KeptScanned(cs);
    var tail := cs[|AllChunks(runs)|..];
    PrefixFits(cs, Table(runs, true), Table(runs, false), runs, tail, k + 1);
    AllChunksPrefix(runs, k);
    Sparse.Sums(AllChunks(runs[..k]), runs[k].chunks);
  }

  lemma RecordedRight(cs: seq<Chunk>, table: seq<Sums>, runs: seq<Run>, i: nat)
    requires runs == Kept(MaximalRuns(cs)) && Tabled(cs, table)
    requires (cs != [] ==> cs[0].Raw?) && 0 < i && 2 * i < |runs| <= 2 * ENTRIES + 1
    ensures |table| == 2 * ENTRIES && i <= |Table(runs, true)| == DataRuns(cs) <= ENTRIES + 1
    ensures table[i - 1] == Stored(runs[2 * i - 2].Sum())
    ensures
      var at := ENTRIES + i - 1;
      && (at >= DataRuns(cs) ==> table[at] == Stored(runs[2 * i - 1].Sum()))
      && (at < DataRuns(cs) ==> table[at] == Stored(Table(runs, true)[at]))
  {
    hide AllChunks, Span, Blocks, Data, Kept, MaximalRuns, Table, Run.Sum, Alternate;
    KeptScanned(cs);
    var data, gaps := Table(runs, true), Table(runs, false);
    FirstIsRaw(cs, data, gaps, runs, cs[|AllChunks(runs)|..]);
    Entry(runs, i - 1);
    assert 2 * (i - 1) == 2 * i - 2 && 2 * (i - 1) + 1 == 2 * i - 1;
    if ENTRIES + i - 1 >= |data| {
      assert table[ENTRIES + (i - 1)] == Stored(gaps[i - 1]);
    }
  }

  /** All runs are placed right if and only if every step reads the right values. */
  lemma AllPlacedIff(cs: seq<Chunk>, table: seq<Sums>, runs: seq<Run>, base: nat)
    requires Programmable(cs, base) && runs == Kept(MaximalRuns(cs)) && Tabled(cs, table)
    requires |runs| <= 2 * ENTRIES + 1 && |table| == 2 * ENTRIES
    ensures AllPlaced(table, runs, base) <==> forall i: nat | 0 < i && 2 * i < |runs| :: StepRight(table, runs, i)
  {
    hide Placed, StepRight, Programmable, Tabled, Kept, MaximalRuns;
    if AllPlaced(table, runs, base) {
      forall i: nat | 0 < i && 2 * i < |runs|
        ensures StepRight(table, runs, i)
      {
        assert Placed(table, runs, base, i - 1) && Placed(table, runs, base, i);
        StepIff(cs, table, runs, base, i);
      }
    }
    if forall i: nat | 0 < i && 2 * i < |runs| :: StepRight(table, runs, i) {
      forall i: nat | 2 * i < |runs|
        ensures Placed(table, runs, base, i)
      {
        PlacedFrom(cs, table, runs, base, i);
      }
    }
  }

  lemma {:induction false} PlacedFrom(cs: seq<Chunk>, table: seq<Sums>, runs: seq<Run>, base: nat, i: nat)
    requires Programmable(cs, base) && runs == Kept(MaximalRuns(cs)) && Tabled(cs, table)
    requires |runs| <= 2 * ENTRIES + 1 && |table| == 2 * ENTRIES && 2 * i < |runs|
    requires forall i: nat | 0 < i && 2 * i < |runs| :: StepRight(table, runs, i)
    ensures Placed(table, runs, base, i)
  {
    hide Placed, StepRight, Programmable, Tabled, Kept, MaximalRuns;
    if i == 0 {
      PlacedFirst(table, runs, base);
    } else {
      PlacedFrom(cs, table, runs, base, i - 1);
      StepIff(cs, table, runs, base, i);
    }
  }

  lemma PlacedFirst(table: seq<Sums>, runs: seq<Run>, base: nat)
    requires |table| == 2 * ENTRIES
    ensures Placed(table, runs, base, 0)
  {
    NothingBefore(runs);
    assert runs[..2 * 0] == runs[..0];
  }

  lemma LowBits(a: nat, b: nat)
    ensures a % COUNT_LIMIT + b % COUNT_LIMIT == a + b <==> a < COUNT_LIMIT && b < COUNT_LIMIT
  {
    var q, r := DivParts(a, COUNT_LIMIT);
    var p, s := DivParts(b, COUNT_LIMIT);
  }

  /**
   As long as the data runs fit their table, all of them are placed right if and only if every run
   in front of the last data run has a chunk count that its 16 bits can hold.
   */
  lemma PlacedIff(cs: seq<Chunk>, table: seq<Sums>, base: nat)
    requires Programmable(cs, base) && Tabled(cs, table) && DataRuns(cs) <= 100
    ensures
      var runs := Kept(MaximalRuns(cs));
      && |table| == 2 * ENTRIES && |runs| <= 2 * ENTRIES + 1
      && (AllPlaced(table, runs, base) <==> ShortRuns(cs))
  {
    var runs := Kept(MaximalRuns(cs));
    RunsLength(cs);
    AllPlacedIff(cs, table, runs, base);
    hide AllPlaced, Kept, MaximalRuns, Tabled, AllValid, Stored, Span, Blocks, Table, PairShort, StepRight, ShortRuns;
    forall i: nat | 0 < i && 2 * i < |runs|
      ensures StepRight(table, runs, i) <==>
              PairShort(runs, i)
    {
      StepShort(cs, table, runs, i);
    }
    ShortByPairs(cs, runs);
  }

  lemma RunsLength(cs: seq<Chunk>)
    requires (cs != [] ==> cs[0].Raw?) && DataRuns(cs) <= ENTRIES + 1
    ensures
      var runs := Kept(MaximalRuns(cs));
      |runs| == if runs == [] then 0 else 2 * DataRuns(cs) - 1
  {
    KeptScanned(cs);
    var runs := Kept(MaximalRuns(cs));
    hide AllChunks, Kept, MaximalRuns, Table, Alternate;
    FirstIsRaw(cs, Table(runs, true), Table(runs, false), runs, cs[|AllChunks(runs)|..]);
    if runs != [] {
      Lengths(runs);
    }
  }

  /** Neither of the two runs in front of data run `i` is too long. */
  predicate PairShort(runs: seq<Run>, i: nat)
    requires 0 < i && 2 * i <= |runs|
  {
    |runs[2 * i - 2].chunks| < COUNT_LIMIT && |runs[2 * i - 1].chunks| < COUNT_LIMIT
  }

  lemma StepShort(cs: seq<Chunk>, table: seq<Sums>, runs: seq<Run>, i: nat)
    requires runs == Kept(MaximalRuns(cs)) && Tabled(cs, table) && (cs != [] ==> cs[0].Raw?)
    requires 0 < i && 2 * i < |runs| <= 2 * ENTRIES + 1 && |table| == 2 * ENTRIES && DataRuns(cs) < ENTRIES + i
    ensures StepRight(table, runs, i) <==>
            PairShort(runs, i)
  {
    hide Kept, MaximalRuns, Table, Tabled;
    RecordedRight(cs, table, runs, i);
    LowBits(|runs[2 * i - 2].chunks|, |runs[2 * i - 1].chunks|);
  }

  /** The runs in front of the last are those of the steps, two by two. */
  lemma ShortByPairs(cs: seq<Chunk>, runs: seq<Run>)
    requires runs == Kept(MaximalRuns(cs)) && (runs == [] || |runs| == 2 * DataRuns(cs) - 1)
    ensures ShortRuns(cs) <==>
            forall i: nat | 0 < i && 2 * i < |runs| ::
              PairShort(runs, i)
  {
    hide Kept, MaximalRuns, DataRuns;
    if forall i: nat | 0 < i && 2 * i < |runs| ::
        PairShort(runs, i) {
      forall k | 0 <= k < |runs| - 1
        ensures |runs[k].chunks| < COUNT_LIMIT
      {
        var q, r := DivParts(k, 2);
        var i: nat := q + 1;
        assert PairShort(runs, i);
        assert k == if r == 0 then 2 * i - 2 else 2 * i - 1;
      }
    }
  }

  /** With 101 data runs: what the step to the second one reads is right, although its last entry is another's. */
  predicate OverlapAgrees(runs: seq<Run>)
    requires |runs| == 2 * ENTRIES + 1
  {
    && |runs[0].chunks| % 65536 + |runs[200].chunks| % 65536 == |runs[0].chunks| + |runs[1].chunks|
    && Blocks(runs[200].chunks) == Blocks(runs[1].chunks)
  }

  /** All runs from the second data run on, but for the last, are short enough. */
  predicate ShortBehind(runs: seq<Run>) {
    forall k | 2 <= k < |runs| - 1 :: |runs[k].chunks| < 65536
  }

  /**
   With one data run more than its table has entries, the last one is recorded over the first
   don't-care run. All runs are then placed right if and only if the two entries agree, up to what the
   16 bits of the counters lose, and the other runs are short enough for them.
   */
  lemma PlacedIffOverlap(cs: seq<Chunk>, table: seq<Sums>, base: nat)
    requires Programmable(cs, base) && Tabled(cs, table) && DataRuns(cs) == 101
    ensures
      var runs := Kept(MaximalRuns(cs));
      && |table| == 2 * ENTRIES && |runs| == 2 * ENTRIES + 1
      && (AllPlaced(table, runs, base) <==> OverlapAgrees(runs) && ShortBehind(runs))
  {
    var runs := Kept(MaximalRuns(cs));
    RunsLength(cs);
    AllPlacedIff(cs, table, runs, base);
    FirstStep(cs, table, runs);
    hide AllPlaced, Kept, MaximalRuns, Tabled, AllValid, Span, Blocks, Table, StepRight, PairShort, OverlapAgrees,
        ShortBehind;
    BehindByPairs(runs);
    forall i: nat | 1 < i && 2 * i < |runs|
      ensures StepRight(table, runs, i) <==> PairShort(runs, i)
    {
      StepShort(cs, table, runs, i);
    }
    assert 2 * 1 < |runs|;
  }

  lemma BehindByPairs(runs: seq<Run>)
    requires |runs| == 2 * ENTRIES + 1
    ensures ShortBehind(runs) <==> forall i: nat | 1 < i && 2 * i < |runs| :: PairShort(runs, i)
  {
    if forall i: nat | 1 < i && 2 * i < |runs| :: PairShort(runs, i) {
      forall k | 2 <= k < |runs| - 1
        ensures |runs[k].chunks| < COUNT_LIMIT
      {
        var q, r := DivParts(k, 2);
        var i: nat := q + 1;
        assert PairShort(runs, i);
        assert k == if r == 0 then 2 * i - 2 else 2 * i - 1;
      }
    }
  }

  lemma FirstStep(cs: seq<Chunk>, table: seq<Sums>, runs: seq<Run>)
    requires runs == Kept(MaximalRuns(cs)) && Tabled(cs, table) && (cs != [] ==> cs[0].Raw?)
    requires |runs| == 2 * ENTRIES + 1 && |table| == 2 * ENTRIES && DataRuns(cs) == ENTRIES + 1
    ensures StepRight(table, runs, 1) <==> OverlapAgrees(runs)
  {
    hide Kept, MaximalRuns, Table, Tabled, Blocks, Data, AllChunks, Alternate;
    RecordedRight(cs, table, runs, 1);
    KeptScanned(cs);
    FirstIsRaw(cs, Table(runs, true), Table(runs, false), runs, cs[|AllChunks(runs)|..]);
    Entry(runs, ENTRIES);
  }

  // ---------------------------------------------------------------------------------------
  // Images that are placed wrong

  function OneBlock(): (c: Chunk)
    ensures c.Raw? && c.Valid() && c.blocks == 1 && c.Size() == CHUNK_HEADER + BLOCK
  {
    Raw(1, seq(BLOCK, _ => 0))
  }

  function Repeat(c: Chunk, n: nat): seq<Chunk> {
    if n == 0 then [] else Repeat(c, n - 1) + [c]
  }

  lemma {:induction false} Repeated(c: Chunk, n: nat)
    requires c.Valid()
    ensures |Repeat(c, n)| == n && Span(Repeat(c, n)) == n * c.Size() && Blocks(Repeat(c, n)) == n * c.blocks
    ensures AllValid(Repeat(c, n)) && (n > 0 ==> Repeat(c, n)[0] == c)
  {
    hide Span, Blocks, Data, MaximalRuns, AllValid;
    SumsNone();
    if n > 0 {
      Repeated(c, n - 1);
      var before := Repeat(c, n - 1);
      SumsSnoc(before, c);
      ValidParts(before, [c]);
      ValidOne(c);
      assert (n - 1) * c.Size() + c.Size() == n * c.Size();
    }
  }

  /** A repeated chunk is a single run. */
  lemma {:induction false} RepeatedRuns(c: Chunk, n: nat)
    requires n > 0
    ensures MaximalRuns(Repeat(c, n)) == [Run(c.Raw?, Repeat(c, n))]
  {
    hide MaximalRuns, Grown;
    if n == 1 {
      RunOfOne(c);
    } else {
      RepeatedRuns(c, n - 1);
      RunGrows(Repeat(c, n - 1), c);
    }
  }

  lemma RunOfOne(c: Chunk)
    ensures MaximalRuns([c]) == [Run(c.Raw?, [c])] && Repeat(c, 1) == [c]
  {
    hide MaximalRuns;
    RunsSnoc([], c);
    SumsNone();
    assert [] + [c] == [c];
  }

  lemma RunGrows(cs: seq<Chunk>, c: Chunk)
    requires MaximalRuns(cs) == [Run(c.Raw?, cs)]
    ensures MaximalRuns(cs + [c]) == [Run(c.Raw?, cs + [c])]
  {
    hide MaximalRuns, Grown;
    RunsSnoc(cs, c);
    GrownSame([], Run(c.Raw?, cs), c);
    assert [] + [Run(c.Raw?, cs)] == [Run(c.Raw?, cs)];
  }

  lemma ValidOne(c: Chunk)
    requires c.Valid()
    ensures AllValid([c]) && AllValid([])
  {
  }

  lemma SumsNone()
    ensures Span([]) == 0 && Blocks([]) == 0 && MaximalRuns([]) == [] && AllValid([])
  {
  }

  /** About 269 megabytes of one-block chunks, a gap, and one more block. */
  function LongRun(): seq<Chunk> {
    Repeat(OneBlock(), 65536) + [DontCare(1)] + [OneBlock()]
  }

  /** The count of its first run is stored as zero, and the second run is looked for 786432 bytes too early. */
  lemma LongRunMisplaced(table: seq<Sums>)
    requires Tabled(LongRun(), table)
    ensures |table| == 2 * ENTRIES && |Kept(MaximalRuns(LongRun()))| <= 2 * ENTRIES + 1
    ensures Programmable(LongRun(), 0) && !AllPlaced(table, Kept(MaximalRuns(LongRun())), 0)
  {
    hide Repeat, OneBlock, Span, Blocks, Data, MaximalRuns, Tabled, AllPlaced, Table;
    var long, c := Repeat(OneBlock(), COUNT_LIMIT), OneBlock();
    Repeated(c, COUNT_LIMIT);
    RepeatedRuns(c, COUNT_LIMIT);
    SumsSnoc(long, DontCare(1));
    SumsSnoc(long + [DontCare(1)], c);
    RunsSnoc(long, DontCare(1));
    RunsSnoc(long + [DontCare(1)], c);
    var runs := MaximalRuns(LongRun());
    assert runs == [Run(true, long), Run(false, [DontCare(1)]), Run(true, [c])];
    ValidParts(long, [DontCare(1)]);
    ValidParts(long + [DontCare(1)], [c]);
    DataRunsOf(LongRun());
    PlacedIff(LongRun(), table, 0);
    assert |Kept(runs)[0].chunks| == COUNT_LIMIT;
  }

  lemma DataRunsOf(cs: seq<Chunk>)
    ensures cs != [] && cs[0].Raw? && Kept(MaximalRuns(cs)) != [] ==> |Kept(MaximalRuns(cs))| == 2 * DataRuns(cs) - 1
  {
    hide MaximalRuns, Table, Alternate, AllChunks;
    KeptScanned(cs);
    var runs := Kept(MaximalRuns(cs));
    if cs != [] && cs[0].Raw? && runs != [] {
      FirstIsRaw(cs, Table(runs, true), Table(runs, false), runs, cs[|AllChunks(runs)|..]);
      Lengths(runs);
    }
  }

  function ChunkAt(k: nat): Chunk {
    if k % 2 == 0 then OneBlock() else DontCare(2)
  }

  function InTurn(n: nat): seq<Chunk> {
    if n == 0 then [] else InTurn(n - 1) + [ChunkAt(n - 1)]
  }

  lemma {:induction false} InTurnRuns(n: nat)
    ensures |InTurn(n)| == n && Span(InTurn(n)) <= n * (CHUNK_HEADER + BLOCK) && Blocks(InTurn(n)) <= 2 * n
    ensures AllValid(InTurn(n)) && (n > 0 ==> InTurn(n)[0] == OneBlock())
    ensures
      var runs := MaximalRuns(InTurn(n));
      |runs| == n && forall k | 0 <= k < n :: runs[k] == Run(ChunkAt(k).Raw?, [ChunkAt(k)])
  {
    hide Span, Blocks, Data, OneBlock, MaximalRuns, AllValid, ChunkAt;
    SumsNone();
    if n > 0 {
      InTurnRuns(n - 1);
      var before, c := InTurn(n - 1), ChunkAt(n - 1);
      SumsSnoc(before, c);
      RunsSnoc(before, c);
      ValidParts(before, [c]);
      ChunkAtSize(n - 1);
      ValidOne(c);
      if n > 1 {
        OtherKind(n - 1);
      }
    }
  }

  lemma ChunkAtSize(k: nat)
    ensures ChunkAt(k).Valid() && ChunkAt(k).Size() <= CHUNK_HEADER + BLOCK && ChunkAt(k).blocks <= 2
    ensures k == 0 ==> ChunkAt(k) == OneBlock()
  {
    hide OneBlock;
  }

  lemma OtherKind(k: nat)
    requires k > 0
    ensures ChunkAt(k).Raw? != ChunkAt(k - 1).Raw?
  {
  }

  /**
   101 data runs of one block with gaps of two blocks in between: the last data run is recorded over
   the first gap, and the second data run goes to the wrong sectors.
   */
  lemma OverlapMisplaced(table: seq<Sums>)
    requires Tabled(InTurn(2 * ENTRIES + 1), table)
    ensures |table| == 2 * ENTRIES && |Kept(MaximalRuns(InTurn(2 * ENTRIES + 1)))| <= 2 * ENTRIES + 1
    ensures Programmable(InTurn(2 * ENTRIES + 1), 0)
    ensures !AllPlaced(table, Kept(MaximalRuns(InTurn(2 * ENTRIES + 1))), 0)
  {
    hide InTurn, OneBlock, Span, Blocks, Data, Kept, MaximalRuns, Tabled, AllPlaced, Table, AllValid, ChunkAt,
        ShortRuns,
        DataRuns, Repeat;
    var cs := InTurn(2 * ENTRIES + 1);
    InTurnRuns(2 * ENTRIES + 1);
    InTurnKept(cs);
    DataRunsOf(cs);
    PlacedIffOverlap(cs, table, 0);
  }

  /** The scan records all of these runs. */
  lemma InTurnKept(cs: seq<Chunk>)
    requires cs == InTurn(2 * ENTRIES + 1)
    ensures
      var runs := Kept(MaximalRuns(cs));
      && |runs| == 2 * ENTRIES + 1 && ShortRuns(cs) && cs[0].Raw?
      && Blocks(runs[1].chunks) == 2 && Blocks(runs[2 * ENTRIES].chunks) == 1
  {
    hide InTurn, OneBlock, Span, Blocks, Data, MaximalRuns, Table, AllValid, ChunkAt;
    InTurnRuns(2 * ENTRIES + 1);
    var runs := MaximalRuns(cs);
    KindOf(1);
    KindOf(2 * ENTRIES);
    assert runs[2 * ENTRIES] == Run(true, [ChunkAt(2 * ENTRIES)]) && runs[1] == Run(false, [ChunkAt(1)]);
    assert Kept(runs) == runs;
    SingleBlocks(ChunkAt(2 * ENTRIES));
    SingleBlocks(ChunkAt(1));
  }

  lemma KindOf(k: nat)
    ensures k % 2 == 0 ==> ChunkAt(k).Raw? && ChunkAt(k).blocks == 1
    ensures k % 2 != 0 ==> ChunkAt(k).DontCare? && ChunkAt(k).blocks == 2
  {
    hide OneBlock;
  }

  lemma SingleBlocks(c: Chunk)
    ensures Blocks([c]) == c.blocks
  {
    SumsSnoc([], c);
    assert [] + [c] == [c];
  }

  // ---------------------------------------------------------------------------------------
  // Images that start with a don't-care chunk

  /** Then data run `i` is behind don't-care run `i`. */
  lemma {:induction false} LeadingGapEntries(runs: seq<Run>, k: nat)
    requires Alternate(runs) && k < |runs| && !runs[0].raw && runs[k].raw
    ensures
      var i := |Table(runs[..k], true)|;
      && i < |Table(runs, true)| && i < |Table(runs, false)| && |Table(runs[..k], false)| == i + 1
      && Table(runs, false)[i] == runs[k - 1].Sum()
    ensures k > 1 ==>
      var i := |Table(runs[..k], true)|;
      && runs[k - 2].raw && runs[k - 2].Valid() && i > 0 && |Table(runs[..k - 2], true)| == i - 1
      && Table(runs, true)[i - 1] == runs[k - 2].Sum()
    decreases k
  {
    hide Table, Alternate, Run.Valid, Run.Sum;
    NothingBefore(runs);
    AlternateAt(runs, k);
    AlternateAt(runs, k - 1);
    TableAt(runs, k);
    TableAt(runs, k - 1);
    if k > 1 {
      AlternateAt(runs, k - 2);
      TableAt(runs, k - 2);
      LeadingGapEntries(runs, k - 2);
    }
  }

  /** What the second pass reads for an image that starts with a don't-care chunk. */
  lemma LeadingGapTable(cs: seq<Chunk>, table: seq<Sums>, runs: seq<Run>, k: nat)
    requires Tabled(cs, table) && runs == Kept(MaximalRuns(cs))
    requires Alternate(runs) && k < |runs| && !runs[0].raw && runs[k].raw && runs[|runs| - 1].raw
    ensures
      var i := |Table(runs[..k], true)|;
      && |table| == 2 * ENTRIES && i < ENTRIES
      && table[ENTRIES + i].blocks == runs[k - 1].Sum().blocks
      && (k > 1 ==> i > 0 && table[i - 1].bytes == runs[k - 2].Sum().bytes)
  {
    hide Alternate, Run.Valid, Run.Sum, Kept, MaximalRuns;
    LeadingGapEntries(runs, k);
    LeadingGapEntries(runs, |runs| - 1);
    TableAt(runs, |runs| - 1);
    assert runs[..|runs|] == runs;
    hide Table;
    var i := |Table(runs[..k], true)|;
    assert table[ENTRIES + i] == Stored(Table(runs, false)[i]);
    if k > 1 {
      assert table[i - 1] == Stored(Table(runs, true)[i - 1]);
    }
  }

  /**
   With a leading don't-care run, the gap that precedes a data run is the one the computation
   leaves out: every data run starts too early by the size of that gap.
   */
  lemma {:induction false} LeadingGapShifts(cs: seq<Chunk>, table: seq<Sums>, runs: seq<Run>, base: nat, k: nat)
    requires Tabled(cs, table) && runs == Kept(MaximalRuns(cs)) && AllValid(cs) && base + 8 * Blocks(cs) < TWO32
    requires k < |runs| && !runs[0].raw && runs[k].raw
    ensures
      var i := |Table(runs[..k], true)|;
      && |table| == 2 * ENTRIES && i < ENTRIES && k > 0
      && Sector(table, base, i) + 8 * Blocks(runs[k - 1].chunks) == base + 8 * Blocks(AllChunks(runs[..k]))
    decreases k
  {
    hide Table, AllChunks, Alternate, Blocks, NumSectors, Kept, MaximalRuns, Tabled, Sector, Wrap32, AllValid,
        Run.Valid;
    KeptScanned(cs);
    var i := |Table(runs[..k], true)|;
    AlternateAt(runs, k);
    LeadingGapTable(cs, table, runs, k);
    if k > 1 {
      LeadingGapEntries(runs, k);
      LeadingGapShifts(cs, table, runs, base, k - 2);
      LeadingGapTable(cs, table, runs, k - 2);
      LeadingGapBlocks(cs, runs, k);
      Computed(table, base, i);
      NoWrap(base + 8 * Blocks(AllChunks(runs[..k - 2])) + 8 * Blocks(runs[k - 2].chunks));
    } else {
      NothingBefore(runs);
      TableAt(runs, 0);
      AllChunksPrefix(runs, 0);
      assert k == 1 && runs[..0 + 1] == runs[..k] && [] + runs[0].chunks == runs[0].chunks;
      NoSector(table, base, i);
      NoneBlocks();
    }
  }

  lemma NoneBlocks()
    ensures Blocks([]) == 0
  {
  }

  /** The blocks in front of a run, and the sectors of the data run among the two before it. */
  lemma LeadingGapBlocks(cs: seq<Chunk>, runs: seq<Run>, k: nat)
    requires runs == Kept(MaximalRuns(cs)) && AllValid(cs) && 1 < k < |runs| && runs[k - 2].raw && runs[k - 2].Valid()
    ensures
      var before := Blocks(AllChunks(runs[..k - 2])) + Blocks(runs[k - 2].chunks);
      && Blocks(AllChunks(runs[..k])) == before + Blocks(runs[k - 1].chunks)
      && before <= Blocks(cs) && NumSectors(runs[k - 2].Sum().bytes, SECTOR) == 8 * Blocks(runs[k - 2].chunks)
  {
    hide Table, AllChunks, Alternate, Blocks, Data, NumSectors, Kept, MaximalRuns, AllValid, Run.Valid;
    KeptScanned(cs);
    var tail, data, gaps := cs[|AllChunks(runs)|..], Table(runs, true), Table(runs, false);
    AllChunksPrefix(runs, k - 1);
    Sparse.Sums(AllChunks(runs[..k - 1]), runs[k - 1].chunks);
    AllChunksPrefix(runs, k - 2);
    Sparse.Sums(AllChunks(runs[..k - 2]), runs[k - 2].chunks);
    RunSectors(cs, data, gaps, runs, tail, k - 2);
    PrefixFits(cs, data, gaps, runs, tail, k - 1);
  }

  lemma NoSector(table: seq<Sums>, base: nat, i: nat)
    requires |table| == 2 * ENTRIES && i == 0
    ensures Sector(table, base, i) == base
  {
  }

  lemma RunSectors(cs: seq<Chunk>, data: seq<Sums>, gaps: seq<Sums>, runs: seq<Run>, tail: seq<Chunk>, k: nat)
    requires Scanned(cs, data, gaps, runs, tail) && AllValid(cs) && k < |runs| && runs[k].Valid() && runs[k].raw
    ensures NumSectors(|Data(runs[k].chunks)|, SECTOR) == 8 * Blocks(runs[k].chunks)
  {
    hide Table, AllChunks, Blocks, Data, NumSectors, Scanned, Unsparse;
    PrefixFits(cs, data, gaps, runs, tail, k + 1);
    AllChunksPrefix(runs, k);
    var a, r := AllChunks(runs[..k]), runs[k].chunks;
    var prefix := a + r;
    forall j | 0 <= j < |r|
      ensures r[j].Valid()
    {
      assert r[j] == prefix[|a| + j] == cs[|a| + j];
    }
    DataLength(r);
    BlocksAreSectors(Blocks(r));
  }

  /**
   So in an image that starts with a don't-care chunk, a data run lands where it belongs exactly
   when the don't-care run in front of it is without blocks.
   */
  lemma LeadingGapPlacement(cs: seq<Chunk>, table: seq<Sums>, runs: seq<Run>, base: nat, k: nat)
    requires Tabled(cs, table) && runs == Kept(MaximalRuns(cs)) && AllValid(cs) && base + 8 * Blocks(cs) < TWO32
    requires k < |runs| && !runs[0].raw && runs[k].raw
    ensures k > 0 && |table| == 2 * ENTRIES && |Table(runs[..k], true)| < ENTRIES
    ensures Sector(table, base, |Table(runs[..k], true)|) == base + 8 * Blocks(AllChunks(runs[..k]))
            <==> Blocks(runs[k - 1].chunks) == 0
  {
    hide Table, AllChunks, Kept, MaximalRuns, Blocks, Tabled, Sector, AllValid;
    LeadingGapShifts(cs, table, runs, base, k);
  }

  lemma TabledSize(cs: seq<Chunk>, table: seq<Sums>)
    requires Tabled(cs, table)
    ensures |table| == 2 * ENTRIES
  {
  }

  lemma OneGap(gap: Chunk)
    ensures AllChunks([Run(false, [gap])]) == [gap]
  {
    assert [Run(false, [gap])][..0] == [];
    assert AllChunks([]) + [gap] == [gap];
  }

  /** A don't-care chunk of one block and a raw one: the raw block goes to sector 0 instead of sector 8. */
  lemma LeadingGapMisplaced(table: seq<Sums>)
    requires Tabled([DontCare(1), OneBlock()], table)
    ensures |table| == 2 * ENTRIES && Sector(table, 0, 0) == 0
    ensures
      var runs := Kept(MaximalRuns([DontCare(1), OneBlock()]));
      runs == [Run(false, [DontCare(1)]), Run(true, [OneBlock()])] && 8 * Blocks(AllChunks(runs[..1])) == 8
  {
    hide OneBlock, Blocks, MaximalRuns, Grown, Tabled, AllChunks, Sector;
    var gap, c := DontCare(1), OneBlock();
    TabledSize([gap, c], table);
    NoSector(table, 0, 0);
    RunOfOne(gap);
    RunsSnoc([gap], c);
    assert [gap] + [c] == [gap, c] && [] + [Run(false, [gap])] == [Run(false, [gap])];
    GrownSame([], Run(false, [gap]), c);
    SingleBlocks(gap);
    OneGap(gap);
  }
}
