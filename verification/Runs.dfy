/** Runs of chunks of one kind in a sparse image, and the sums that describe them. */
module Runs {
  import opened Sparse

  /** chunk_polymerization_param: the sums over one run of chunks. */
  datatype Sums = Sums(blocks: nat, bytes: nat, count: nat)

  /** A run of chunks of one kind. */
  datatype Run = Run(raw: bool, chunks: seq<Chunk>) {
    predicate Valid() {
      chunks != [] && forall k | 0 <= k < |chunks| :: chunks[k].Raw? == raw
    }

    function Sum(): Sums {
      Sums(Blocks(chunks), |Data(chunks)|, |chunks|)
    }
  }

  function AllChunks(runs: seq<Run>): seq<Chunk> {
    if runs == [] then []
    else
      var n := |runs| - 1;
      AllChunks(runs[..n]) + runs[n].chunks
  }

  /** Maximal runs: each of one kind, and of another kind than its neighbours. */
  predicate Alternate(runs: seq<Run>) {
    runs == [] ||
    var n := |runs| - 1;
    Alternate(runs[..n]) && runs[n].Valid() && (n > 0 ==> runs[n].raw != runs[n - 1].raw)
  }

  /** The sums of the data runs, or of the don't-care runs, in order. */
  function Table(runs: seq<Run>, raw: bool): seq<Sums> {
    if runs == [] then []
    else
      var n := |runs| - 1;
      Table(runs[..n], raw) + (if runs[n].raw == raw then [runs[n].Sum()] else [])
  }

  lemma {:induction false} TablePrefix(runs: seq<Run>, k: nat, raw: bool)
    requires k <= |runs|
    ensures Table(runs[..k], raw) <= Table(runs, raw)
    decreases |runs|
  {
    if k < |runs| {
      var n := |runs| - 1;
      TablePrefix(runs[..n], k, raw);
      assert runs[..n][..k] == runs[..k];
    } else {
      assert runs[..k] == runs;
    }
  }

  lemma AlternateSnoc(runs: seq<Run>, run: Run)
    ensures Alternate(runs + [run])
            <==> Alternate(runs) && run.Valid() && (runs != [] ==> runs[|runs| - 1].raw != run.raw)
    ensures AllChunks(runs + [run]) == AllChunks(runs) + run.chunks
    ensures forall raw :: Table(runs + [run], raw) == Table(runs, raw) + (if run.raw == raw then [run.Sum()] else [])
  {
    assert (runs + [run])[..|runs|] == runs;
  }

  lemma {:induction false} AllChunksPrefix(runs: seq<Run>, k: nat)
    requires k <= |runs|
    ensures AllChunks(runs[..k]) <= AllChunks(runs)
    ensures k < |runs| ==> AllChunks(runs[..k + 1]) == AllChunks(runs[..k]) + runs[k].chunks
    ensures k < |runs| ==> AllChunks(runs[..k + 1]) <= AllChunks(runs)
    decreases |runs|
  {
    if k == |runs| {
      assert runs[..k] == runs;
    } else {
      assert runs[..k + 1][..k] == runs[..k];
      var n := |runs| - 1;
      if k < n {
        AllChunksPrefix(runs[..n], k);
        assert runs[..n][..k] == runs[..k] && runs[..n][..k + 1] == runs[..k + 1];
      } else {
        assert runs[..k + 1] == runs;
      }
    }
  }

  lemma {:induction false} AlternateAt(runs: seq<Run>, k: nat)
    requires Alternate(runs) && k < |runs|
    ensures runs[k].Valid() && (k > 0 ==> runs[k].raw != runs[k - 1].raw)
    decreases |runs|
  {
    var n := |runs| - 1;
    if k < n {
      AlternateAt(runs[..n], k);
    }
  }

  /** The k-th run is in the table of its kind, right behind those of the runs in front of it. */
  lemma TableAt(runs: seq<Run>, k: nat)
    requires k < |runs|
    ensures
      var t := Table(runs[..k], runs[k].raw);
      && |t| < |Table(runs, runs[k].raw)| && Table(runs, runs[k].raw)[|t|] == runs[k].Sum()
      && Table(runs[..k + 1], runs[k].raw) == t + [runs[k].Sum()]
      && Table(runs[..k + 1], !runs[k].raw) == Table(runs[..k], !runs[k].raw)
  {
    TablePrefix(runs, k + 1, runs[k].raw);
    assert runs[..k + 1][..k] == runs[..k];
  }

  lemma {:induction false} SpanOf(cs: seq<Chunk>)
    ensures Span(cs) == CHUNK_HEADER * |cs| + |Data(cs)|
  {
    if cs != [] {
      SpanOf(cs[1..]);
    }
  }

  lemma {:induction false} NoData(cs: seq<Chunk>)
    requires forall k | 0 <= k < |cs| :: cs[k].DontCare?
    ensures Data(cs) == []
  {
    if cs != [] {
      NoData(cs[1..]);
    }
  }

  lemma NothingBefore(runs: seq<Run>)
    ensures Table(runs[..0], true) == [] && Table(runs[..0], false) == []
    ensures AllChunks(runs[..0]) == [] && Span(AllChunks(runs[..0])) == 0 && Blocks(AllChunks(runs[..0])) == 0
  {
  }

  /**
   What the scan makes of an image: maximal runs that partition the chunk list, up to a trailing
   don't-care run that is not recorded.
   */
  predicate Scanned(cs: seq<Chunk>, data: seq<Sums>, gaps: seq<Sums>, runs: seq<Run>, tail: seq<Chunk>) {
    && cs == AllChunks(runs) + tail
    && (forall k | 0 <= k < |tail| :: tail[k].DontCare?)
    && Alternate(runs) && (runs != [] ==> runs[|runs| - 1].raw)
    && data == Table(runs, true) && gaps == Table(runs, false)
  }

  /** The prefixes of the runs are prefixes of the image, so nothing overflows. */
  lemma PrefixFits(cs: seq<Chunk>, data: seq<Sums>, gaps: seq<Sums>, runs: seq<Run>, tail: seq<Chunk>, k: nat)
    requires Scanned(cs, data, gaps, runs, tail) && k <= |runs|
    ensures AllChunks(runs[..k]) <= cs
    ensures Span(AllChunks(runs[..k])) <= Span(cs) && Blocks(AllChunks(runs[..k])) <= Blocks(cs)
  {
    AllChunksPrefix(runs, k);
    var a := AllChunks(runs[..k]);
    assert cs == a + cs[|a|..];
    Sparse.Sums(a, cs[|a|..]);
  }

  lemma ValidParts(a: seq<Chunk>, b: seq<Chunk>)
    ensures AllValid(a + b) <==> AllValid(a) && AllValid(b)
  {
    var c := a + b;
    if AllValid(c) {
      forall j | 0 <= j < |a| ensures a[j].Valid() {
        assert c[j] == a[j];
      }
      forall j | 0 <= j < |b| ensures b[j].Valid() {
        assert c[|a| + j] == b[j];
      }
    }
  }

  lemma {:induction false} DataLength(cs: seq<Chunk>)
    requires forall k | 0 <= k < |cs| :: cs[k].Valid() && cs[k].Raw?
    ensures |Data(cs)| == BLOCK * Blocks(cs)
  {
    if cs != [] {
      assert cs[0].Valid() && cs[0].Raw?;
      DataLength(cs[1..]);
    }
  }

  // ---------------------------------------------------------------------------------------
  // The maximal runs of a chunk list

  function MaximalRuns(cs: seq<Chunk>): seq<Run> {
    if cs == [] then []
    else Grown(MaximalRuns(cs[..|cs| - 1]), cs[|cs| - 1])
  }

  /** One more chunk extends the last run or starts another. */
  function Grown(runs: seq<Run>, c: Chunk): seq<Run> {
    var n := |runs|;
    if n > 0 && runs[n - 1].raw == c.Raw? then runs[..n - 1] + [Run(c.Raw?, runs[n - 1].chunks + [c])]
    else runs + [Run(c.Raw?, [c])]
  }

  /** The runs that the scan records: all but a trailing don't-care run. */
  function Kept(runs: seq<Run>): seq<Run> {
    if runs != [] && !runs[|runs| - 1].raw then runs[..|runs| - 1] else runs
  }

  function DataRuns(cs: seq<Chunk>): nat {
    |Table(Kept(MaximalRuns(cs)), true)|
  }

  function GapRuns(cs: seq<Chunk>): nat {
    |Table(Kept(MaximalRuns(cs)), false)|
  }

  /** They are maximal: each of one kind, and of another kind than its neighbours; and they are all chunks. */
  lemma {:induction false} MaximalAlternate(cs: seq<Chunk>)
    ensures Alternate(MaximalRuns(cs)) && AllChunks(MaximalRuns(cs)) == cs
    ensures Alternate(Kept(MaximalRuns(cs)))
  {
    hide Alternate, AllChunks, MaximalRuns, Grown, Kept;
    if cs == [] {
      NoRuns(cs);
    } else {
      var n := |cs| - 1;
      MaximalAlternate(cs[..n]);
      GrownAlternates(MaximalRuns(cs[..n]), cs[n]);
      assert cs == cs[..n] + [cs[n]];
      RunsSnoc(cs[..n], cs[n]);
      KeptAlternates(MaximalRuns(cs));
    }
  }

  lemma NoRuns(cs: seq<Chunk>)
    requires cs == []
    ensures Alternate(MaximalRuns(cs)) && AllChunks(MaximalRuns(cs)) == cs && Alternate(Kept(MaximalRuns(cs)))
  {
  }

  lemma KeptAlternates(runs: seq<Run>)
    requires Alternate(runs)
    ensures Alternate(Kept(runs))
  {
  }

  lemma GrownAlternates(runs: seq<Run>, c: Chunk)
    requires Alternate(runs)
    ensures Alternate(Grown(runs, c)) && AllChunks(Grown(runs, c)) == AllChunks(runs) + [c]
  {
    hide Alternate, AllChunks, Table, Grown, Run.Sum;
    if runs == [] {
      FirstGrown(c);
    } else {
      var n := |runs| - 1;
      var front, current := runs[..n], runs[n];
      var longer := Run(c.Raw?, current.chunks + [c]);
      assert runs == front + [current];
      GrownSame(front, current, c);
      AlternateSnoc(front, current);
      AlternateSnoc(front, longer);
      AlternateSnoc(runs, Run(c.Raw?, [c]));
      assert AllChunks(front) + (current.chunks + [c]) == (AllChunks(front) + current.chunks) + [c];
    }
  }

  lemma FirstGrown(c: Chunk)
    ensures Alternate(Grown([], c)) && AllChunks(Grown([], c)) == AllChunks([]) + [c]
  {
    AlternateSnoc([], Run(c.Raw?, [c]));
    assert Grown([], c) == [] + [Run(c.Raw?, [c])];
  }

  lemma RunsSnoc(done: seq<Chunk>, c: Chunk)
    ensures MaximalRuns(done + [c]) == Grown(MaximalRuns(done), c)
  {
    assert (done + [c])[..|done|] == done;
  }

  lemma GrownSame(runs: seq<Run>, current: Run, c: Chunk)
    ensures c.Raw? == current.raw ==> Grown(runs + [current], c) == runs + [Run(c.Raw?, current.chunks + [c])]
    ensures c.Raw? != current.raw ==> Grown(runs + [current], c) == runs + [current] + [Run(c.Raw?, [c])]
  {
    assert (runs + [current])[..|runs|] == runs;
  }

  lemma KeptGrows(runs: seq<Run>, c: Chunk)
    ensures |Table(Kept(runs), false)| <= |Table(Kept(Grown(runs, c)), false)|
  {
    hide Run.Sum;
    if runs == [] {
      assert Grown(runs, c) == [Run(c.Raw?, [c])];
    } else {
      var n := |runs| - 1;
      var front, current := runs[..n], runs[n];
      assert runs == front + [current];
      GrownSame(front, current, c);
      AlternateSnoc(front, current);
      AlternateSnoc(front, Run(c.Raw?, current.chunks + [c]));
      AlternateSnoc(runs, Run(c.Raw?, [c]));
      assert (front + [Run(c.Raw?, current.chunks + [c])])[..n] == front;
      assert (runs + [Run(c.Raw?, [c])])[..n + 1] == runs;
      hide Table, Grown;
    }
  }

  lemma {:induction false} GapRunsGrow(cs: seq<Chunk>, m: nat)
    requires m <= |cs|
    ensures GapRuns(cs[..m]) <= GapRuns(cs)
    decreases |cs|
  {
    if m < |cs| {
      var front := cs[..|cs| - 1];
      GapRunsGrow(front, m);
      assert front[..m] == cs[..m] && cs == front + [cs[|cs| - 1]];
      RunsSnoc(front, cs[|cs| - 1]);
      KeptGrows(MaximalRuns(front), cs[|cs| - 1]);
      hide Kept, Grown, Table;
    } else {
      assert cs[..m] == cs;
    }
  }

  /** Runs alternate, so the tables differ by at most one entry. */
  lemma {:induction false} Balanced(runs: seq<Run>)
    requires Alternate(runs)
    ensures |Table(runs, true)| <= |Table(runs, false)| + 1
    ensures runs != [] && !runs[|runs| - 1].raw ==> |Table(runs, true)| <= |Table(runs, false)|
    ensures |Table(runs, false)| <= |Table(runs, true)| + 1
    ensures runs == [] || runs[|runs| - 1].raw ==> |Table(runs, false)| <= |Table(runs, true)|
  {
    hide Run.Sum, Run.Valid;
    if runs != [] {
      Balanced(runs[..|runs| - 1]);
    }
  }

  const COUNT_LIMIT := 0x1_0000     // total_chunk_count has 16 bits

  /** Every recorded run but the last has fewer chunks than a 16-bit counter can tell apart. */
  predicate ShortRuns(cs: seq<Chunk>) {
    var runs := Kept(MaximalRuns(cs));
    forall k | 0 <= k < |runs| - 1 :: |runs[k].chunks| < 65536
  }

  lemma {:induction false} TableCounts(runs: seq<Run>, raw: bool)
    requires forall k | 0 <= k < |runs| :: |runs[k].chunks| < COUNT_LIMIT
    ensures forall i | 0 <= i < |Table(runs, raw)| :: Table(runs, raw)[i].count < COUNT_LIMIT
  {
    if runs != [] {
      TableCounts(runs[..|runs| - 1], raw);
    }
  }

  /** So the counts in the tables are below the limit, up to that of the last data run. */
  lemma ShortTables(cs: seq<Chunk>, data: seq<Sums>, gaps: seq<Sums>, runs: seq<Run>, tail: seq<Chunk>)
    requires Scanned(cs, data, gaps, runs, tail) && runs == Kept(MaximalRuns(cs)) && ShortRuns(cs)
    ensures forall i | 0 <= i < |data| - 1 :: data[i].count < COUNT_LIMIT
    ensures forall j | 0 <= j < |gaps| :: gaps[j].count < COUNT_LIMIT
    ensures |gaps| <= |data| == DataRuns(cs) && |gaps| == GapRuns(cs)
  {
    hide MaximalRuns, Kept;
    Balanced(runs);
    if runs != [] {
      var front := runs[..|runs| - 1];
      TableCounts(front, true);
      TableCounts(front, false);
      assert data == Table(front, true) + [runs[|runs| - 1].Sum()] && gaps == Table(front, false) + [];
    }
  }
}
