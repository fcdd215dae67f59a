/** The three passes of Firehose sparse programming, and the streaming of plain images. */
module Firehose {
  import opened Arith
  import opened Bytes
  import opened Sparse
  import opened Runs

  /**
   The state of the scan after the chunks `done`: `runs` are the completed runs, and the totals
   are the sums of the run `current`, whose kind is the last chunk type.
   */
  predicate Scanning(done: seq<Chunk>, data: seq<Sums>, gaps: seq<Sums>, runs: seq<Run>, current: Run, totals: Sums,
                     last: nat) {
    && data == Table(runs, true) && gaps == Table(runs, false)
    && if last == 0 then done == [] && runs == [] && totals == Sums(0, 0, 0)
       else
         && MaximalRuns(done) == runs + [current]
         && done == AllChunks(runs) + current.chunks
         && last == TypeOf(current.raw)
         && totals == current.Sum()
         && Alternate(runs + [current])
  }

  lemma Alone(c: Chunk)
    ensures Run(c.Raw?, [c]).Sum() == Sums(c.blocks, |c.Data()|, 1) && Run(c.Raw?, [c]).Valid()
  {
    SumsSnoc([], c);
    assert [] + [c] == [c];
  }

  function TypeOf(raw: bool): nat {
    if raw then RAW else DONT_CARE
  }

  lemma ExtendRun(done: seq<Chunk>, data: seq<Sums>, gaps: seq<Sums>, runs: seq<Run>, current: Run, totals: Sums,
                  c: Chunk)
    requires Scanning(done, data, gaps, runs, current, totals, TypeOf(c.Raw?))
    ensures Scanning(done + [c], data, gaps, runs, Run(c.Raw?, current.chunks + [c]),
                     Sums(totals.blocks + c.blocks, totals.bytes + |c.Data()|, totals.count + 1), TypeOf(c.Raw?))
  {
    RunsSnoc(done, c);
    GrownSame(runs, current, c);
    hide Table, Alternate, AllChunks, Blocks, Data, MaximalRuns, Grown;
    var current' := Run(c.Raw?, current.chunks + [c]);
    AlternateSnoc(runs, current);
    AlternateSnoc(runs, current');
    SumsSnoc(current.chunks, c);
    assert (AllChunks(runs) + current.chunks) + [c] == AllChunks(runs) + current'.chunks;
  }

  lemma NewRun(done: seq<Chunk>, data: seq<Sums>, gaps: seq<Sums>, runs: seq<Run>, current: Run, totals: Sums, c: Chunk)
    requires Scanning(done, data, gaps, runs, current, totals, TypeOf(!c.Raw?))
    ensures Scanning(done + [c], if c.Raw? then data else data + [totals], if c.Raw? then gaps + [totals] else gaps,
                     runs + [current], Run(c.Raw?, [c]), Sums(c.blocks, |c.Data()|, 1), TypeOf(c.Raw?))
  {
    RunsSnoc(done, c);
    GrownSame(runs, current, c);
    hide Table, Alternate, AllChunks, Blocks, Data, MaximalRuns, Grown;
    Alone(c);
    AlternateSnoc(runs, current);
    AlternateSnoc(runs + [current], Run(c.Raw?, [c]));
  }

  lemma FirstRun(c: Chunk)
    ensures Scanning([c], [], [], [], Run(c.Raw?, [c]), Sums(c.blocks, |c.Data()|, 1), TypeOf(c.Raw?))
  {
    Alone(c);
    AlternateSnoc([], Run(c.Raw?, [c]));
    assert MaximalRuns([c][..0]) == [];
    assert [] + [Run(c.Raw?, [c])] == [Run(c.Raw?, [c])];
  }

  lemma ScanStart(file: seq<byte>, cs: seq<Chunk>, table: seq<Sums>, current: Run)
    requires IsImage(file, cs) && |table| == 2 * ENTRIES
    ensures |file| >= FILE_HEADER && Le16(file, 8) == FILE_HEADER && Le32(file, 20) == |cs|
    ensures Span(cs[..0]) == 0 && cs[..0] == []
    ensures Recorded(table, [], []) && Scanning([], [], [], [], current, Sums(0, 0, 0), 0)
    ensures cs == [] ==> Scanned(cs, [], [], [], []) && [] == Kept(MaximalRuns(cs))
  {
    hide Le16, Le32, HoldsChunk;
  }

  /** At the change of kind there is room in the table for the run that ends. */
  lemma Room(done: seq<Chunk>, data: seq<Sums>, gaps: seq<Sums>, runs: seq<Run>, current: Run, totals: Sums, c: Chunk)
    requires Scanning(done, data, gaps, runs, current, totals, TypeOf(!c.Raw?)) && GapRuns(done + [c]) <= ENTRIES
    ensures !c.Raw? ==> |data| <= |gaps|
    ensures c.Raw? ==> |data| <= |gaps| + 1 && |gaps| < ENTRIES
  {
    RunsSnoc(done, c);
    GrownSame(runs, current, c);
    AlternateSnoc(runs, current);
    AlternateSnoc(runs + [current], Run(c.Raw?, [c]));
    Balanced(runs);
    Balanced(runs + [current]);
    hide Table, Alternate, AllChunks, Blocks, Data, MaximalRuns, Grown;
  }

  /** One step of the scan, in terms of the kind of the last chunk and of this one. */
  lemma ScanStep(done: seq<Chunk>, data: seq<Sums>, gaps: seq<Sums>, runs: seq<Run>, current: Run, totals: Sums,
                 last: nat, c: Chunk)
    returns (runs': seq<Run>, current': Run)
    requires Scanning(done, data, gaps, runs, current, totals, last) && GapRuns(done + [c]) <= ENTRIES
    ensures last == 0 || last == TypeOf(c.Raw?) || last == TypeOf(!c.Raw?)
    ensures
      var alone := Sums(c.blocks, |c.Data()|, 1);
      var longer := Sums(totals.blocks + c.blocks, totals.bytes + |c.Data()|, totals.count + 1);
      && (last == 0 ==> alone == longer)
      && (last == 0 || last == TypeOf(c.Raw?) ==>
            Scanning(done + [c], data, gaps, runs', current', longer, TypeOf(c.Raw?)))
      && (last == TypeOf(!c.Raw?) && c.Raw? ==>
            |data| <= |gaps| + 1 && |gaps| < ENTRIES
            && Scanning(done + [c], data, gaps + [totals], runs', current', alone, TypeOf(c.Raw?)))
      && (last == TypeOf(!c.Raw?) && !c.Raw? ==>
            |data| <= |gaps|
            && Scanning(done + [c], data + [totals], gaps, runs', current', alone, TypeOf(c.Raw?)))
  {
    hide MaximalRuns, AllChunks, Alternate, Blocks, Data, GapRuns, Table;
    runs', current' := runs, Run(c.Raw?, current.chunks + [c]);
    if last == 0 {
      FirstRun(c);
      runs', current' := [], Run(c.Raw?, [c]);
      assert done + [c] == [c];
    } else if last == TypeOf(c.Raw?) {
      ExtendRun(done, data, gaps, runs, current, totals, c);
    } else {
      NewRun(done, data, gaps, runs, current, totals, c);
      Room(done, data, gaps, runs, current, totals, c);
      runs', current' := runs + [current], Run(c.Raw?, [c]);
    }
  }

  lemma TypeIsKind(raw: bool)
    ensures TypeOf(raw) == RAW || TypeOf(raw) == FILL <==> raw
    ensures TypeOf(raw) != 0
  {
  }

  lemma LastRun(cs: seq<Chunk>, data: seq<Sums>, gaps: seq<Sums>, runs: seq<Run>, current: Run, totals: Sums, last: nat)
    requires Scanning(cs, data, gaps, runs, current, totals, last) && last != 0
    ensures if current.raw then Scanned(cs, data + [totals], gaps, runs + [current], [])
            else Scanned(cs, data, gaps, runs, current.chunks)
    ensures last == TypeOf(current.raw)
    ensures Kept(MaximalRuns(cs)) == if current.raw then runs + [current] else runs
    ensures current.raw ==> |data| <= |gaps|
  {
    AlternateSnoc(runs, current);
    Balanced(runs);
    Balanced(runs + [current]);
    assert (runs + [current])[..|runs|] == runs;
    hide Table, Alternate, AllChunks, Blocks, Data, MaximalRuns;
  }

  /** The fields of the m-th chunk header, and where the next one is. */
  lemma HeaderAt(file: seq<byte>, cs: seq<Chunk>, m: nat)
    requires IsImage(file, cs) && m < |cs|
    ensures
      var fp := FILE_HEADER + Span(cs[..m]);
      && fp + CHUNK_HEADER <= |file|
      && Le16(file, fp) == TypeOf(cs[m].Raw?)
      && Le32(file, fp + 4) == cs[m].blocks
      && Le32(file, fp + 8) == cs[m].Size()
      && FILE_HEADER + Span(cs[..m + 1]) == fp + cs[m].Size()
    ensures cs[..m + 1] == cs[..m] + [cs[m]]
  {
    hide Le16, Le32, Span, Blocks, Data;
    assert cs[..m + 1] == cs[..m] + [cs[m]];
    SumsSnoc(cs[..m], cs[m]);
    var fp := FILE_HEADER + Span(cs[..m]);
    assert HoldsChunk(file, fp, cs[m]);
  }

  const ENTRIES := 100

  /** A table entry as the program stores it: the chunk count has 16 bits. */
  function Stored(s: Sums): Sums {
    s.(count := s.count % COUNT_LIMIT)
  }

  /**
   What the two tables hold, one right behind the other in memory: the sums of the data runs and of
   the don't-care runs. Entry 100 of the first is entry 0 of the second.
   */
  predicate Recorded(table: seq<Sums>, data: seq<Sums>, gaps: seq<Sums>) {
    && |table| == 2 * ENTRIES && |data| <= ENTRIES + 1 && |gaps| <= ENTRIES
    && (forall i | 0 <= i < |data| :: table[i] == Stored(data[i]))
    && (forall j | 0 <= j < |gaps| && ENTRIES + j >= |data| :: table[ENTRIES + j] == Stored(gaps[j]))
  }

  lemma RecordData(table: seq<Sums>, data: seq<Sums>, gaps: seq<Sums>, s: Sums)
    requires Recorded(table, data, gaps) && |data| <= |gaps|
    ensures Recorded(table[|data| := Stored(s)], data + [s], gaps)
  {
    hide Stored;
  }

  lemma RecordGap(table: seq<Sums>, data: seq<Sums>, gaps: seq<Sums>, s: Sums)
    requires Recorded(table, data, gaps) && |data| <= |gaps| + 1 && |gaps| < ENTRIES
    ensures Recorded(table[ENTRIES + |gaps| := Stored(s)], data, gaps + [s])
  {
    hide Stored;
  }

  /** Without overlap and with counts that fit, the entries that the second pass reads are the sums. */
  lemma EntriesRight(table: seq<Sums>, data: seq<Sums>, gaps: seq<Sums>, i: nat)
    requires Recorded(table, data, gaps) && i < |data| <= ENTRIES && (i > 0 ==> i - 1 < |gaps|)
    requires i > 0 ==> data[i - 1].count < COUNT_LIMIT && gaps[i - 1].count < COUNT_LIMIT
    ensures |table| == 2 * ENTRIES && table[i].bytes == data[i].bytes
    ensures i > 0 ==> table[i - 1] == data[i - 1] && table[ENTRIES + i - 1] == gaps[i - 1]
  {
    if i > 0 {
      assert table[ENTRIES + (i - 1)] == Stored(gaps[i - 1]);
    }
  }

  lemma GapsBelowData(cs: seq<Chunk>)
    ensures GapRuns(cs) <= DataRuns(cs)
  {
    MaximalAlternate(cs);
    var runs := MaximalRuns(cs);
    Balanced(Kept(runs));
    hide MaximalRuns, Table;
  }

  class SparseImgData {
    const table: array<Sums>    // chunk_polymerization_data, then chunk_polymerization_cac3
    var dataCount: nat          // total_count
    var gapCount: nat           // total_cac3_count
    var first: nat              // file_first_sector_offset
    ghost var data: seq<Sums>   // the sums recorded so far
    ghost var gaps: seq<Sums>

    ghost predicate Valid()
      reads this, table
    {
      Recorded(table[..], data, gaps) && dataCount == |data| && gapCount == |gaps|
    }

    constructor ()
      ensures table.Length == 2 * ENTRIES && fresh(table)
    {
      table := new Sums[2 * ENTRIES](_ => Sums(0, 0, 0));
      dataCount, gapCount, first, data, gaps := 0, 0, 0, [], [];
    }

    method PutData(totals: Sums)
      requires Valid() && |data| <= |gaps|
      modifies this`dataCount, this`data, table
      ensures Valid() && data == old(data) + [totals]
    {
      RecordData(table[..], data, gaps, totals);
      table[dataCount] := Stored(totals);
      dataCount := dataCount + 1;
      data := data + [totals];
    }

    method PutGap(totals: Sums)
      requires Valid() && |data| <= |gaps| + 1 && |gaps| < ENTRIES
      modifies this`gapCount, this`gaps, table
      ensures Valid() && gaps == old(gaps) + [totals]
    {
      RecordGap(table[..], data, gaps, totals);
      table[ENTRIES + gapCount] := Stored(totals);
      gapCount := gapCount + 1;
      gaps := gaps + [totals];
    }

    /** What the scan does with one chunk header; `c` is the chunk the header describes. */
    method Take(chunkType: nat, chunkSz: nat, totalSz: nat, totals: Sums, last: nat,
                ghost c: Chunk, ghost done: seq<Chunk>, ghost runs: seq<Run>, ghost current: Run)
      returns (totals': Sums, ghost runs': seq<Run>, ghost current': Run)
      requires Valid() && Scanning(done, data, gaps, runs, current, totals, last)
      requires chunkType == TypeOf(c.Raw?) && chunkSz == c.blocks && totalSz == c.Size()
      requires GapRuns(done + [c]) <= ENTRIES
      modifies this`data, this`gaps, this`dataCount, this`gapCount, table
      ensures Valid() && Scanning(done + [c], data, gaps, runs', current', totals', TypeOf(c.Raw?))
    {
      hide Scanning, Recorded, GapRuns;
      runs', current' := ScanStep(done, data, gaps, runs, current, totals, last, c);
      var alone := Sums(chunkSz, totalSz - CHUNK_HEADER, 1);
      var longer := Sums(totals.blocks + chunkSz, totals.bytes + (totalSz - CHUNK_HEADER), totals.count + 1);
      totals' := totals;
      if chunkType == RAW || chunkType == FILL {
        if last != RAW && last != FILL && last != 0 {
          PutGap(totals);
          totals' := alone;
        } else if last == 0 {
          totals' := alone;
        } else {
          totals' := longer;
        }
      }
      if chunkType == DONT_CARE {
        if last != DONT_CARE && last != 0 {
          PutData(totals);
          totals' := alone;
        } else {
          totals' := longer;
        }
      }
    }

    /** Behind the last chunk, a data run is recorded, and a don't-care run is not. */
    method TakeLast(chunkType: nat, totals: Sums, ghost cs: seq<Chunk>, ghost runs: seq<Run>, ghost current: Run)
      returns (ghost runs': seq<Run>, ghost tail: seq<Chunk>)
      requires Valid() && Scanning(cs, data, gaps, runs, current, totals, chunkType) && chunkType != 0
      modifies this`data, this`dataCount, table
      ensures Valid() && Scanned(cs, data, gaps, runs', tail) && runs' == Kept(MaximalRuns(cs))
    {
      hide Scanning, Scanned, Recorded, MaximalRuns, Kept, TypeOf;
      LastRun(cs, data, gaps, runs, current, totals, chunkType);
      TypeIsKind(current.raw);
      runs', tail := runs, current.chunks;
      if chunkType == RAW || chunkType == FILL {
        PutData(totals);
        runs', tail := runs + [current], [];
      }
    }

    /**
     `fh_process_sparse_program`: one pass over the chunk headers. The totals become the sums of the
     maximal runs of the chunk list. The file is below the 32-bit limit of its offsets, and there
     are no more don't-care runs than entries for them.
     */
    method Scan(file: seq<byte>, ghost cs: seq<Chunk>) returns (ghost runs: seq<Run>, ghost tail: seq<Chunk>)
      requires table.Length == 2 * ENTRIES
      requires IsImage(file, cs) && FILE_HEADER + Span(cs) < TWO32 && Blocks(cs) < TWO32
      requires GapRuns(cs) <= ENTRIES
      modifies this, table
      ensures Valid() && first == FILE_HEADER && Scanned(cs, data, gaps, runs, tail) && runs == Kept(MaximalRuns(cs))
    {
      hide Table, Alternate, AllChunks, Scanning, Scanned, IsImage, HoldsChunk, Span, Blocks, Data, Le16, Le32, TypeOf;
      hide Recorded, GapRuns, MaximalRuns, Kept;
      ghost var current := Run(true, []);
      ScanStart(file, cs, table[..], current);
      dataCount, gapCount, first := 0, 0, Le16(file, 8);
      data, gaps := [], [];
      var totalChunks, fp := Le32(file, 20), FILE_HEADER;
      var totals, last := Sums(0, 0, 0), 0;
      runs, tail := [], [];
      for m := 0 to totalChunks
        invariant fp == FILE_HEADER + Span(cs[..m]) && first == FILE_HEADER && Valid()
        invariant m < totalChunks ==> Scanning(cs[..m], data, gaps, runs, current, totals, last)
        invariant m == totalChunks ==> Scanned(cs, data, gaps, runs, tail) && runs == Kept(MaximalRuns(cs))
      {
        HeaderAt(file, cs, m);
        GapRunsGrow(cs, m + 1);
        var chunkType, chunkSz, totalSz := Le16(file, fp), Le32(file, fp + 4), Le32(file, fp + 8);
        totals, runs, current := Take(chunkType, chunkSz, totalSz, totals, last, cs[m], cs[..m], runs, current);
        fp := fp + totalSz;
        if m == totalChunks - 1 {
          assert cs[..m + 1] == cs;
          TypeIsKind(cs[m].Raw?);
          runs, tail := TakeLast(chunkType, totals, cs, runs, current);
        }
        last := chunkType;
      }
    }

    /**
     `fh_process_program` for a sparse image whose first chunk is raw, with the target's flash as an
     array: afterwards the flash holds the un-sparsed image. `max` is the payload limit. The data
     runs fit their table, and every run in front of the last data run has a count that fits its
     field: for images without more data runs than entries, these are exactly the ones that are
     placed right (`Placement.PlacedIff`).
     */
    method Program(file: seq<byte>, ghost cs: seq<Chunk>, base: nat, max: nat, flash: array<byte>)
      requires table.Length == 2 * ENTRIES
      requires IsImage(file, cs) && (cs != [] ==> cs[0].Raw?)
      requires max > 0 && WholeSectors(max)
      requires SECTOR * base + BLOCK * Blocks(cs) <= flash.Length
      requires FILE_HEADER + Span(cs) < TWO32 && base + 8 * Blocks(cs) < TWO32
      requires DataRuns(cs) <= 100 && ShortRuns(cs)
      modifies this, table, flash
      ensures flash[..] == Unsparse(old(flash[..]), 512 * base, cs)
    {
      GapsBelowData(cs);
      hide Located, Written, Scanned, Table, AllChunks, Span, Blocks, Data, IsImage, Held, Alternate, Unsparse,
          Overwrite;
      hide AllValid, NumSectors, Wrap32, WholeSectors, Recorded, Stored, DataRuns, GapRuns, Kept, MaximalRuns,
          ShortRuns;
      ghost var flash0 := flash[..];
      PrefixValid(file, cs, cs);
      ghost var runs, tail := Scan(file, cs);
      ShortTables(cs, data, gaps, runs, tail);
      ghost var tables := table[..];
      label Tables:
      ghost var k, kd: nat := 0, 0;
      var fileOffset: nat, startSector: nat, sectors: nat := 0, base, 0;
      Start(flash0, base, runs);
      for i := 0 to dataCount
        invariant data == old@Tables(data) && gaps == old@Tables(gaps) && table[..] == tables && first == FILE_HEADER
        invariant dataCount == |data| && Recorded(tables, data, gaps)
        invariant Located(runs, base, i, k, fileOffset, startSector, sectors)
        invariant Written(flash0, base, runs, k, flash[..])
      {
        kd := Locate(cs, data, gaps, runs, tail, base, i, k, fileOffset, startSector, sectors);
        RunHeld(file, cs, data, gaps, runs, tail, kd);
        WrittenNext(file, cs, data, gaps, runs, tail, base, k, kd, flash0, flash[..]);
        EntriesRight(tables, data, gaps, i);
        if i == 0 {
          fileOffset := first;
        } else {
          fileOffset := Wrap32(fileOffset + table[i - 1].bytes + table[i - 1].count * CHUNK_HEADER
                               + table[ENTRIES + i - 1].count * CHUNK_HEADER);
          startSector := Wrap32(startSector + sectors + table[ENTRIES + i - 1].blocks * 8);
        }
        var size := table[i].bytes;
        sectors := NumSectors(size, SECTOR);
        Relocated(runs, base, i, kd, fileOffset, startSector, sectors);
        var sent := SendRun(file, fileOffset, size, max, runs[kd]);
        WriteFlash(flash, SECTOR * startSector, sent);
        k := kd + 1;
      }
      AllProgrammed(cs, data, gaps, runs, tail, base, k, fileOffset, startSector, sectors);
      WrittenAll(flash0, base, cs, data, gaps, runs, tail, flash[..]);
    }

    /** The target's side of raw mode: the streamed bytes go to consecutive sectors. */
    method WriteFlash(flash: array<byte>, at: nat, bytes: seq<byte>)
      requires at + |bytes| <= flash.Length
      modifies flash
      ensures flash[..] == Overwrite(old(flash[..]), at, bytes)
    {
      forall i | 0 <= i < |bytes| {
        flash[at + i] := bytes[i];
      }
    }
  }

  /**
   Where the second pass stands in front of data run `i`: `k` runs are programmed, and the command
   still holds the true prefix sums of the last one.
   */
  predicate Located(runs: seq<Run>, base: nat, i: nat, k: nat, fileOffset: nat, startSector: nat, sectors: nat) {
    && k <= |runs| && |Table(runs[..k], true)| == i
    && if i == 0 then k == 0 && startSector == base
       else
         && k > 0 && runs[k - 1].raw && |Table(runs[..k], false)| == i - 1
         && fileOffset == FILE_HEADER + Span(AllChunks(runs[..k - 1]))
         && startSector == base + 8 * Blocks(AllChunks(runs[..k - 1]))
         && sectors == 8 * Blocks(runs[k - 1].chunks)
  }

  /** In front of data run `i`, the next run is that run, or the gap before it. */
  lemma NextData(cs: seq<Chunk>, data: seq<Sums>, gaps: seq<Sums>, runs: seq<Run>, tail: seq<Chunk>, i: nat, k: nat)
    returns (kd: nat)
    requires Scanned(cs, data, gaps, runs, tail) && i < |data| && (runs != [] ==> runs[0].raw)
    requires k <= |runs| && |Table(runs[..k], true)| == i
    requires if i == 0 then k == 0 else k > 0 && runs[k - 1].raw && |Table(runs[..k], false)| == i - 1
    ensures kd == (if i == 0 then 0 else k + 1) && kd < |runs| && runs[kd].raw && runs[kd].Valid()
    ensures data[i] == runs[kd].Sum()
    ensures i > 0 ==>
      && runs[k - 1].Valid() && data[i - 1] == runs[k - 1].Sum()
      && i - 1 < |gaps| && gaps[i - 1] == runs[k].Sum() && !runs[k].raw && runs[k].Valid()
    ensures |Table(runs[..kd + 1], true)| == i + 1 && |Table(runs[..kd + 1], false)| == i
  {
    hide Table, AllChunks, Alternate, Run.Sum, Run.Valid;
    NothingBefore(runs);
    assert runs[..|runs|] == runs;
    kd := if i == 0 then 0 else k + 1;
    if i > 0 {
      GapBehind(cs, data, gaps, runs, tail, i, k);
    }
    RunAt(cs, data, gaps, runs, tail, i, kd);
  }

  /** The run behind a data run that is not the last: a gap, recorded at the same place in its table. */
  lemma GapBehind(cs: seq<Chunk>, data: seq<Sums>, gaps: seq<Sums>, runs: seq<Run>, tail: seq<Chunk>, i: nat, k: nat)
    requires Scanned(cs, data, gaps, runs, tail) && 0 < i < |data| && 0 < k <= |runs|
    requires |Table(runs[..k], true)| == i && runs[k - 1].raw && |Table(runs[..k], false)| == i - 1
    ensures k + 1 < |runs| && runs[k - 1].Valid() && runs[k].Valid() && !runs[k].raw && runs[k + 1].raw
    ensures data[i - 1] == runs[k - 1].Sum() && i - 1 < |gaps| && gaps[i - 1] == runs[k].Sum()
    ensures |Table(runs[..k + 1], true)| == i && |Table(runs[..k + 1], false)| == i
  {
    hide Table, AllChunks, Alternate, Run.Sum, Run.Valid;
    assert runs[..|runs|] == runs;
    AlternateAt(runs, k);
    AlternateAt(runs, k - 1);
    TableAt(runs, k - 1);
    TableAt(runs, k);
    AlternateAt(runs, k + 1);
  }

  lemma RunAt(cs: seq<Chunk>, data: seq<Sums>, gaps: seq<Sums>, runs: seq<Run>, tail: seq<Chunk>, i: nat, k: nat)
    requires Scanned(cs, data, gaps, runs, tail) && i < |data| && k < |runs| && runs[k].raw
    requires |Table(runs[..k], true)| == i && |Table(runs[..k], false)| == i
    ensures runs[k].Valid() && data[i] == runs[k].Sum()
    ensures |Table(runs[..k + 1], true)| == i + 1 && |Table(runs[..k + 1], false)| == i
  {
    hide Table, AllChunks, Alternate, Run.Sum, Run.Valid;
    AlternateAt(runs, k);
    TableAt(runs, k);
  }

  /**
   The command's arithmetic: adding up the table entries of the last data run and of the gap behind
   it moves the file offset and the start sector to the next data run.
   */
  lemma NextOffset(runs: seq<Run>, base: nat, k: nat)
    requires 0 < k && k + 1 < |runs| && runs[k - 1].Valid() && runs[k].Valid() && !runs[k].raw
    ensures
      var d, g := runs[k - 1].Sum(), runs[k].Sum();
      && Span(AllChunks(runs[..k + 1]))
         == Span(AllChunks(runs[..k - 1])) + d.bytes + d.count * CHUNK_HEADER + g.count * CHUNK_HEADER
      && Blocks(AllChunks(runs[..k + 1])) == Blocks(AllChunks(runs[..k - 1])) + d.blocks + g.blocks
  {
    AllChunksPrefix(runs, k - 1);
    AllChunksPrefix(runs, k);
    var a, d, g := AllChunks(runs[..k - 1]), runs[k - 1].chunks, runs[k].chunks;
    Sparse.Sums(a, d);
    Sparse.Sums(a + d, g);
    SpanOf(d);
    SpanOf(g);
    NoData(g);
  }

  /** The k-th run lies in the file right behind the chunks in front of it. */
  lemma RunHeld(file: seq<byte>, cs: seq<Chunk>, data: seq<Sums>, gaps: seq<Sums>, runs: seq<Run>, tail: seq<Chunk>,
                k: nat)
    requires IsImage(file, cs) && Scanned(cs, data, gaps, runs, tail) && k < |runs|
    ensures Held(file, FILE_HEADER + Span(AllChunks(runs[..k])), runs[k].chunks)
  {
    hide HoldsChunk, Span, AllChunks, IsImage, Scanned;
    var a, r := AllChunks(runs[..k]), runs[k].chunks;
    PrefixFits(cs, data, gaps, runs, tail, k + 1);
    AllChunksPrefix(runs, k);
    forall j | 0 <= j < |r|
      ensures r[j].Valid() && HoldsChunk(file, FILE_HEADER + Span(a) + Span(r[..j]), r[j])
    {
      ChunkOfImage(file, cs, a, r, j);
    }
  }

  lemma ChunkOfImage(file: seq<byte>, cs: seq<Chunk>, a: seq<Chunk>, r: seq<Chunk>, j: nat)
    requires IsImage(file, cs) && a + r <= cs && j < |r|
    ensures r[j].Valid() && HoldsChunk(file, FILE_HEADER + Span(a) + Span(r[..j]), r[j])
  {
    hide HoldsChunk, Span;
    assert cs[|a| + j] == r[j] && cs[..|a| + j] == a + r[..j];
    Sparse.Sums(a, r[..j]);
  }

  /** The flash holds the first `k` runs, expanded. */
  predicate Written(flash0: seq<byte>, base: nat, runs: seq<Run>, k: nat, flash: seq<byte>) {
    k <= |runs| &&
    var a := AllChunks(runs[..k]);
    && Fits(|flash0|, SECTOR * base, a)
    && flash == Unsparse(flash0, SECTOR * base, a)
  }

  lemma WrittenGap(flash0: seq<byte>, base: nat, runs: seq<Run>, k: nat, flash: seq<byte>)
    requires Written(flash0, base, runs, k, flash) && k < |runs| && runs[k].Valid() && !runs[k].raw
    requires AllValid(AllChunks(runs[..k + 1])) && SECTOR * base + BLOCK * Blocks(AllChunks(runs[..k + 1])) <= |flash0|
    ensures Written(flash0, base, runs, k + 1, flash)
  {
    hide Unsparse, Overwrite, AllChunks, Blocks, AllValid;
    AllChunksPrefix(runs, k);
    var a, g := AllChunks(runs[..k]), runs[k].chunks;
    Sparse.Sums(a, g);
    ValidParts(a, g);
    UnsparseAppend(flash0, SECTOR * base, a, g);
    UnsparseGap(flash, SECTOR * base + BLOCK * Blocks(a), g);
  }

  lemma WrittenData(flash0: seq<byte>, base: nat, runs: seq<Run>, k: nat, flash: seq<byte>)
    requires Written(flash0, base, runs, k, flash) && k < |runs| && runs[k].Valid() && runs[k].raw
    requires AllValid(AllChunks(runs[..k + 1])) && SECTOR * base + BLOCK * Blocks(AllChunks(runs[..k + 1])) <= |flash0|
    ensures |Data(runs[k].chunks)| == BLOCK * Blocks(runs[k].chunks)
    ensures SECTOR * base + BLOCK * Blocks(AllChunks(runs[..k])) + |Data(runs[k].chunks)| <= |flash0| == |flash|
    ensures Written(flash0, base, runs, k + 1,
                    Overwrite(flash, SECTOR * base + BLOCK * Blocks(AllChunks(runs[..k])), Data(runs[k].chunks)))
  {
    hide Unsparse, Overwrite, AllChunks, Blocks, Data, AllValid;
    AllChunksPrefix(runs, k);
    var a, r := AllChunks(runs[..k]), runs[k].chunks;
    Sparse.Sums(a, r);
    ValidParts(a, r);
    UnsparseAppend(flash0, SECTOR * base, a, r);
    UnsparseRun(flash, SECTOR * base + BLOCK * Blocks(a), r);
  }

  lemma WrittenAll(flash0: seq<byte>, base: nat, cs: seq<Chunk>, data: seq<Sums>, gaps: seq<Sums>, runs: seq<Run>,
                   tail: seq<Chunk>, flash: seq<byte>)
    requires Scanned(cs, data, gaps, runs, tail) && AllValid(cs)
    requires SECTOR * base + BLOCK * Blocks(cs) <= |flash0|
    requires Written(flash0, base, runs, |runs|, flash)
    ensures flash == Unsparse(flash0, SECTOR * base, cs)
  {
    hide Unsparse;
    assert runs[..|runs|] == runs;
    var a := AllChunks(runs);
    Sparse.Sums(a, tail);
    UnsparseAppend(flash0, SECTOR * base, a, tail);
    UnsparseGap(flash, SECTOR * base + BLOCK * Blocks(a), tail);
  }

  /** When the data table is exhausted, so are the runs: the last one is a data run. */
  lemma AllProgrammed(cs: seq<Chunk>, data: seq<Sums>, gaps: seq<Sums>, runs: seq<Run>, tail: seq<Chunk>,
                      base: nat, k: nat, fileOffset: nat, startSector: nat, sectors: nat)
    requires Scanned(cs, data, gaps, runs, tail)
    requires Located(runs, base, |data|, k, fileOffset, startSector, sectors)
    ensures k == |runs|
  {
    if k < |runs| {
      var n := |runs| - 1;
      TableAt(runs, n);
      assert runs[..n][..k] == runs[..k];
      TablePrefix(runs[..n], k, true);
    }
  }

  /**
   What the second pass computes for data run `i` is where the run lies in the file and where it
   belongs on the flash.
   */
  lemma Start(flash0: seq<byte>, base: nat, runs: seq<Run>)
    requires SECTOR * base <= |flash0|
    ensures Located(runs, base, 0, 0, 0, base, 0) && Written(flash0, base, runs, 0, flash0)
  {
    NothingBefore(runs);
  }

  function Wrap32(x: nat): nat {
    x % TWO32
  }

  lemma NoWrap(x: nat)
    requires x < TWO32
    ensures Wrap32(x) == x
  {
  }

  lemma Locate(cs: seq<Chunk>, data: seq<Sums>, gaps: seq<Sums>, runs: seq<Run>, tail: seq<Chunk>,
               base: nat, i: nat, k: nat, fileOffset: nat, startSector: nat, sectors: nat)
    returns (kd: nat)
    requires (cs != [] ==> cs[0].Raw?) && Scanned(cs, data, gaps, runs, tail) && i < |data|
    requires Located(runs, base, i, k, fileOffset, startSector, sectors)
    requires FILE_HEADER + Span(cs) < TWO32 && base + 8 * Blocks(cs) < TWO32
    ensures kd < |runs| && runs[kd].raw && runs[kd].Valid() && data[i] == runs[kd].Sum()
    ensures kd == k || (kd == k + 1 && runs[k].Valid() && !runs[k].raw)
    ensures i == 0 ==> startSector == base + 8 * Blocks(AllChunks(runs[..kd])) && Span(AllChunks(runs[..kd])) == 0
    ensures i > 0 ==> i - 1 < |gaps| && i - 1 < |data|
    ensures i > 0 ==>
              Wrap32(fileOffset + data[i - 1].bytes + data[i - 1].count * CHUNK_HEADER
                  + gaps[i - 1].count * CHUNK_HEADER)
              == FILE_HEADER + Span(AllChunks(runs[..kd]))
    ensures i > 0 ==>
              Wrap32(startSector + sectors + gaps[i - 1].blocks * 8) == base + 8 * Blocks(AllChunks(runs[..kd]))
    ensures |Table(runs[..kd + 1], true)| == i + 1 && |Table(runs[..kd + 1], false)| == i
  {
    hide Table, Scanned, Alternate, AllChunks, Span, Blocks, Data, Wrap32;
    FirstIsRaw(cs, data, gaps, runs, tail);
    kd := NextData(cs, data, gaps, runs, tail, i, k);
    NothingBefore(runs);
    PrefixFits(cs, data, gaps, runs, tail, kd);
    NoWrap(FILE_HEADER + Span(AllChunks(runs[..kd])));
    NoWrap(base + 8 * Blocks(AllChunks(runs[..kd])));
    if i > 0 {
      NextOffset(runs, base, k);
    }
  }

  lemma WrittenNext(file: seq<byte>, cs: seq<Chunk>, data: seq<Sums>, gaps: seq<Sums>, runs: seq<Run>, tail: seq<Chunk>,
                    base: nat, k: nat, kd: nat, flash0: seq<byte>, flash: seq<byte>)
    requires IsImage(file, cs) && Scanned(cs, data, gaps, runs, tail) && Written(flash0, base, runs, k, flash)
    requires SECTOR * base + BLOCK * Blocks(cs) <= |flash0|
    requires kd < |runs| && runs[kd].raw && runs[kd].Valid()
    requires kd == k || (kd == k + 1 && runs[k].Valid() && !runs[k].raw)
    ensures |Data(runs[kd].chunks)| == BLOCK * Blocks(runs[kd].chunks)
    ensures
      var at := SECTOR * base + BLOCK * Blocks(AllChunks(runs[..kd]));
      && at + |Data(runs[kd].chunks)| <= |flash0| == |flash|
      && Written(flash0, base, runs, kd + 1, Overwrite(flash, at, Data(runs[kd].chunks)))
  {
    PrefixFits(cs, data, gaps, runs, tail, kd);
    PrefixFits(cs, data, gaps, runs, tail, kd + 1);
    PrefixValid(file, cs, AllChunks(runs[..kd]));
    PrefixValid(file, cs, AllChunks(runs[..kd + 1]));
    hide IsImage, Scanned, Written, Overwrite, AllValid;
    if kd == k + 1 {
      WrittenGap(flash0, base, runs, k, flash);
    }
    WrittenData(flash0, base, runs, kd, flash);
  }

  lemma Relocated(runs: seq<Run>, base: nat, i: nat, kd: nat, fileOffset: nat, startSector: nat, sectors: nat)
    requires kd < |runs| && runs[kd].raw
    requires |Table(runs[..kd + 1], true)| == i + 1 && |Table(runs[..kd + 1], false)| == i
    requires fileOffset == FILE_HEADER + Span(AllChunks(runs[..kd]))
    requires startSector == base + 8 * Blocks(AllChunks(runs[..kd]))
    requires |Data(runs[kd].chunks)| == BLOCK * Blocks(runs[kd].chunks)
    requires sectors == NumSectors(|Data(runs[kd].chunks)|, SECTOR)
    ensures Located(runs, base, i + 1, kd + 1, fileOffset, startSector, sectors)
    ensures SECTOR * startSector == SECTOR * base + BLOCK * Blocks(AllChunks(runs[..kd]))
  {
    hide Table, Span, Blocks, Data, AllChunks, NumSectors;
    BlocksAreSectors(Blocks(runs[kd].chunks));
  }

  lemma FirstIsRaw(cs: seq<Chunk>, data: seq<Sums>, gaps: seq<Sums>, runs: seq<Run>, tail: seq<Chunk>)
    requires Scanned(cs, data, gaps, runs, tail) && (cs != [] ==> cs[0].Raw?)
    ensures runs != [] ==> runs[0].raw
  {
    if runs != [] {
      AllChunksPrefix(runs, 0);
      AlternateAt(runs, 0);
      assert runs[..1] == [runs[0]] && runs[..0] == [];
      assert AllChunks(runs[..1])[0] == cs[0];
    }
  }

  lemma PrefixValid(file: seq<byte>, cs: seq<Chunk>, a: seq<Chunk>)
    requires IsImage(file, cs) && a <= cs
    ensures AllValid(a)
  {
    hide HoldsChunk, Span;
    forall j | 0 <= j < |a| ensures a[j].Valid() {
      assert a[j] == cs[j];
    }
  }

  function NumSectors(size: nat, sector: nat): nat
    requires sector > 0
  {
    size / sector + (if size % sector != 0 then 1 else 0)
  }

  /** Zeros up to the next multiple of the sector size. */
  function Pad(bytes: seq<byte>, sector: nat): (r: seq<byte>)
    requires sector > 0
  {
    if |bytes| % sector == 0 then bytes else bytes + seq(sector - |bytes| % sector, _ => 0)
  }

  lemma PadLength(bytes: seq<byte>, sector: nat)
    requires sector > 0
    ensures |Pad(bytes, sector)| == sector * NumSectors(|bytes|, sector)
    ensures bytes <= Pad(bytes, sector)
  {
    var q, r := DivParts(|bytes|, sector);
    assert sector * (q + 1) == sector * q + sector;
  }

  /** The bytes, zeros behind them, and no more than the last sector needs. */
  lemma PadIs(bytes: seq<byte>, sector: nat)
    requires sector > 0
    ensures
      var r := Pad(bytes, sector);
      && |r| % sector == 0 && |bytes| <= |r| < |bytes| + sector
      && r[..|bytes|] == bytes && forall k | |bytes| <= k < |r| :: r[k] == 0
  {
    PadWhole(bytes, sector);
    PadLength(bytes, sector);
  }

  predicate WholeSectors(n: nat) {
    n % SECTOR == 0
  }

  lemma BlocksAreSectors(blocks: nat)
    ensures WholeSectors(BLOCK * blocks) && NumSectors(BLOCK * blocks, SECTOR) == 8 * blocks
  {
    DivUnique(BLOCK * blocks, SECTOR, 8 * blocks, 0);
  }

  /** The write loop for the payload of one chunk: full pieces, then the rest, each padded. */
  method SendPieces(file: seq<byte>, fp: nat, size: nat, max: nat) returns (sent: seq<byte>)
    requires fp + size <= |file| && max > 0 && WholeSectors(max) && WholeSectors(size)
    ensures sent == file[fp..fp + size]
  {
    var left := size;
    sent := [];
    while left >= max
      invariant 0 <= left <= size && sent == file[fp..fp + size - left] && WholeSectors(left)
    {
      var at := fp + size - left;
      sent := sent + Pad(file[at..at + max], SECTOR);
      assert file[fp..at] + file[at..at + max] == file[fp..at + max];
      left := left - max;
    }
    if left > 0 {
      var at := fp + size - left;
      sent := sent + Pad(file[at..at + left], SECTOR);
      assert file[fp..at] + file[at..at + left] == file[fp..at + left];
    }
  }

  /** The file holds these chunks, one behind the other, from `at` on. */
  ghost predicate Held(file: seq<byte>, at: nat, cs: seq<Chunk>) {
    forall k | 0 <= k < |cs| :: cs[k].Valid() && HoldsChunk(file, at + Span(cs[..k]), cs[k])
  }

  /**
   The sending pass over one data run: chunk headers are read and skipped, payloads streamed,
   until as many bytes are sent as the run holds.
   */
  method SendRun(file: seq<byte>, offset: nat, size: nat, max: nat, ghost run: Run) returns (sent: seq<byte>)
    requires max > 0 && WholeSectors(max)
    requires run.raw && run.Valid() && size == |Data(run.chunks)|
    requires Held(file, offset, run.chunks)
    ensures sent == Data(run.chunks)
  {
    var fp, filesend := offset, 0;
    ghost var k, cs := 0, run.chunks;
    sent := [];
    assert cs[..0] == [] && Span([]) == 0 && Data([]) == [];
    hide Span, Data, Held, HoldsChunk, WholeSectors;
    while true
      invariant 0 <= k < |cs| && fp == offset + Span(cs[..k])
      invariant sent == Data(cs[..k]) && filesend == |sent|
      decreases |cs| - k
    {
      var payload := SendNext(file, offset, max, run, k, fp);
      sent, filesend := sent + payload, filesend + |payload|;
      fp, k := fp + CHUNK_HEADER + |payload|, k + 1;
      if filesend >= size {
        break;
      }
    }
  }

  /** Streams the k-th chunk of a run. */
  method SendNext(file: seq<byte>, ghost offset: nat, max: nat, ghost run: Run, ghost k: nat, fp: nat)
    returns (payload: seq<byte>)
    requires max > 0 && WholeSectors(max)
    requires run.raw && run.Valid() && k < |run.chunks| && Held(file, offset, run.chunks)
    requires fp == offset + Span(run.chunks[..k])
    ensures offset + Span(run.chunks[..k + 1]) == fp + CHUNK_HEADER + |payload|
    ensures Data(run.chunks[..k + 1]) == Data(run.chunks[..k]) + payload
    ensures |Data(run.chunks[..k + 1])| >= |Data(run.chunks)| ==> Data(run.chunks[..k + 1]) == Data(run.chunks)
    ensures k + 1 == |run.chunks| ==> Data(run.chunks[..k + 1]) == Data(run.chunks)
  {
    hide Span, Data, Held, HoldsChunk, WholeSectors;
    ChunkHere(file, offset, run, k);
    PrefixSums(run.chunks, k);
    DataPrefix(run.chunks, k + 1);
    payload := SendChunk(file, fp, max, run.chunks[k]);
  }

  /** Reads the chunk header at `fp` and streams the payload behind it. */
  method SendChunk(file: seq<byte>, fp: nat, max: nat, ghost c: Chunk) returns (payload: seq<byte>)
    requires max > 0 && WholeSectors(max)
    requires c.Raw? && c.Valid() && HoldsChunk(file, fp, c)
    ensures payload == c.data
  {
    hide Le32, Le16;
    var dataSize := Le32(file, fp + 8) - CHUNK_HEADER;
    BlocksAreSectors(c.blocks);
    hide WholeSectors;
    payload := SendPieces(file, fp + CHUNK_HEADER, dataSize, max);
  }

  lemma ChunkHere(file: seq<byte>, at: nat, run: Run, k: nat)
    requires run.raw && run.Valid() && k < |run.chunks| && Held(file, at, run.chunks)
    ensures run.chunks[k].Raw? && run.chunks[k].Valid()
    ensures HoldsChunk(file, at + Span(run.chunks[..k]), run.chunks[k])
  {
    hide HoldsChunk, Span;
  }

  /** As many bytes as the whole run has are the whole run. */
  lemma DataPrefix(cs: seq<Chunk>, k: nat)
    requires k <= |cs|
    ensures |Data(cs[..k])| >= |Data(cs)| ==> Data(cs[..k]) == Data(cs)
    ensures k == |cs| ==> Data(cs[..k]) == Data(cs)
  {
    assert cs == cs[..k] + cs[k..];
    Sparse.Sums(cs[..k], cs[k..]);
  }

  // ---------------------------------------------------------------------------------------
  // Plain images

  /** The file size that the sending loop works with: `gpt_empty0.bin` loses its last 512 bytes. */
  function SentSize(fileSize: nat, gpt: bool): int {
    if gpt then fileSize - 512 else fileSize
  }

  /** `num_partition_sectors` as `fh_fixup_program_cmd` announces it. */
  function Announced(fileSize: nat, gpt: bool, sector: nat): int
    requires sector > 0
  {
    NumSectors(fileSize, sector) - (if gpt then 1 else 0)
  }

  predicate Multiple(n: nat, sector: nat)
    requires sector > 0
  {
    n % sector == 0
  }

  lemma PadWhole(bytes: seq<byte>, sector: nat)
    requires sector > 0
    ensures Multiple(|Pad(bytes, sector)|, sector)
    ensures Multiple(|bytes|, sector) ==> Pad(bytes, sector) == bytes
  {
    if |bytes| % sector != 0 {
      RoundUp(|bytes|, sector);
    }
  }

  lemma PadJoin(a: seq<byte>, b: seq<byte>, sector: nat)
    requires sector > 0 && Multiple(|a|, sector)
    ensures a + Pad(b, sector) == Pad(a + b, sector)
    ensures Multiple(|a + Pad(b, sector)|, sector)
  {
    ModAdd(|a|, |b|, sector);
    assert |a + b| == |a| + |b|;
    PadWhole(a + b, sector);
  }

  /**
   The raw-mode loop for a plain image: the target receives the file's bytes, then zeros up to the
   sector boundary, whatever the payload limit.
   */
  method SendPlain(file: seq<byte>, gpt: bool, max: nat, sector: nat) returns (sent: seq<byte>)
    requires sector > 0 && max > 0 && Multiple(max, sector) && SentSize(|file|, gpt) >= 0
    ensures sent == Pad(file[..SentSize(|file|, gpt)], sector)
    ensures
      var n := if gpt then |file| - 512 else |file|;
      && |sent| % sector == 0 && n <= |sent| < n + sector
      && sent[..n] == file[..n] && forall k | n <= k < |sent| :: sent[k] == 0
  {
    PadIs(file[..SentSize(|file|, gpt)], sector);
    var filesize, filesend := SentSize(|file|, gpt), 0;
    sent := [];
    NothingToPad(sector);
    assert file[..0] == [];
    hide Pad, Multiple;
    while filesend < filesize
      invariant filesend == |sent| && Multiple(filesend, sector)
      invariant if filesend < filesize then sent == file[..filesend] else sent == Pad(file[..filesize], sector)
    {
      var n := if filesize < filesend + max then filesize - filesend else max;
      var piece := Pad(file[filesend..filesend + n], sector);
      PadJoin(sent, file[filesend..filesend + n], sector);
      PadWhole(file[filesend..filesend + n], sector);
      assert file[..filesend] + file[filesend..filesend + n] == file[..filesend + n];
      sent := sent + piece;
      filesend := filesend + |piece|;
    }
  }

  lemma NothingToPad(sector: nat)
    requires sector > 0
    ensures Multiple(0, sector) && Pad([], sector) == []
  {
  }

  /**
   The announced size is the streamed size: always for plain images, and for `gpt_empty0.bin`
   exactly when the last sector of the file holds at most the 512 bytes that are dropped. With
   512-byte sectors that is always so.
   */
  lemma AnnouncedIsStreamed(file: seq<byte>, gpt: bool, sector: nat)
    requires sector >= 512 && file != [] && SentSize(|file|, gpt) >= 0
    ensures |Pad(file[..SentSize(|file|, gpt)], sector)| == Announced(|file|, gpt, sector) * sector
            <==> (!gpt || (|file| - 1) % sector < 512)
  {
    hide Pad, NumSectors;
    var n := SentSize(|file|, gpt);
    PadLength(file[..n], sector);
    var q, r := DivParts(|file| - 1, sector);
    SectorCount(|file|, sector);
    if gpt {
      SectorCount(n, sector);
      if n > 0 {
        if r >= 512 {
          DivUnique(n - 1, sector, q, r - 512);
        } else {
          assert n - 1 == sector * (q - 1) + (r - 512 + sector);
          DivUnique(n - 1, sector, q - 1, r - 512 + sector);
        }
      } else {
        DivUnique(511, sector, 0, 511);
      }
    }
    MulEqual(sector, NumSectors(n, sector), Announced(|file|, gpt, sector));
  }

  /** The number of sectors that hold `n` bytes. */
  lemma SectorCount(n: nat, sector: nat)
    requires sector > 0
    ensures NumSectors(n, sector) == if n == 0 then 0 else (n - 1) / sector + 1
  {
    if n > 0 {
      var q, r := DivParts(n - 1, sector);
      if r == sector - 1 {
        assert n == sector * (q + 1) + 0;
        DivUnique(n, sector, q + 1, 0);
      } else {
        DivUnique(n, sector, q, r + 1);
      }
    }
  }
}
