/** What the merge of parsed snapshots looks like to the rates: no delta spans a snapshot, samples are a second
    apart. */
module MergedCapture {
  import opened Prelude
  import opened Mysqladmin
  import opened MysqladminMerge
  import opened MysqladminStaging
  import opened FindingsInputs
  import opened RedoSizing
  import opened RedoBounds
  import opened RateAgreement

  /** A snapshot as the parser leaves it. */
  ghost predicate Parsed(d: Data) {
    && d.sampleCount > 0 && d.boundaries == [0] && Distinct(d.names)
    && (exists base :: d.timestamps == Ladder(base, d.sampleCount))
    && forall n | n in d.deltas :: |d.deltas[n]| == d.sampleCount
  }

  lemma ParsedAlone(f: File, classify: string -> bool)
    requires ParseSingle(f.base, f.lines, classify).Some?
    ensures Parsed(ParseSingle(f.base, f.lines, classify).value)
  {
    StartIsReady(f.base, classify);
    ParseKeepsValid(Start(f.base), f.lines, classify);
    FileTracks(Start(f.base), f.lines, "", classify);
    var p := Parse(Start(f.base), f.lines, classify);
    SortNames(p.order);
    SortedIsDistinct(Finish(p).value.names);
    assert Finish(p).value.timestamps == Ladder(p.base, p.col);
    assert forall n | n in p.order :: n in Elements(p.order);
  }

  ghost predicate Laddered(ts: seq<real>, bounds: seq<nat>) {
    forall i | 0 < i < |ts| && i !in bounds :: ts[i] == ts[i - 1] + 1.0
  }

  lemma OneMoreLadder(ts: seq<real>, bounds: seq<nat>, d: Data)
    requires Laddered(ts, bounds) && Parsed(d)
    ensures |d.timestamps| == d.sampleCount && Laddered(ts + d.timestamps, bounds + [|ts|])
  {
    var base :| d.timestamps == Ladder(base, d.sampleCount);
    var all, more := ts + d.timestamps, bounds + [|ts|];
    forall i | 0 < i < |all| && i !in more
      ensures all[i] == all[i - 1] + 1.0
    {
      if i < |ts| {
        assert i !in bounds;
      }
    }
  }

  /** After the first, a snapshot's series starts with NaN. */
  lemma PieceFits(d: Data, n: string, first: bool)
    requires Parsed(d)
    ensures |Piece(d, n, true, first)| <= d.sampleCount
    ensures !first ==> Pad(Piece(d, n, true, first), d.sampleCount)[0] == NaN
  {
    ListedOnce(d.names, d, n, true, first);
  }

  lemma MarkAfter(before: seq<Slot>, bounds: seq<nat>, more: seq<Slot>)
    requires MarksSnapshots(before, bounds) && (forall b | b in bounds :: b < |before|) && more != [] && more[0] == NaN
    ensures MarksSnapshots(before + more, bounds + [|before|])
    ensures forall b | b in bounds + [|before|] :: b < |before + more|
  {
    assert bounds[|bounds| - 1] in bounds;
  }

  lemma OneMoreMark(ds: seq<Data>, d: Data, n: string)
    requires ds != [] && Parsed(d) && |MergedSeries(ds, n, true)| == TotalCount(ds)
    requires MarksSnapshots(MergedSeries(ds, n, true), Offsets(ds))
    requires forall b | b in Offsets(ds) :: b < TotalCount(ds)
    ensures MarksSnapshots(MergedSeries(ds + [d], n, true), Offsets(ds + [d]))
    ensures |MergedSeries(ds + [d], n, true)| == TotalCount(ds + [d])
    ensures forall b | b in Offsets(ds + [d]) :: b < TotalCount(ds + [d])
  {
    PieceFits(d, n, false);
    MergedSnoc(ds, d, n, true);
    MarkAfter(MergedSeries(ds, n, true), Offsets(ds), Pad(Piece(d, n, true, false), d.sampleCount));
  }

  lemma {:induction false} MergeMarks(ds: seq<Data>, n: string)
    requires ds != [] && forall i | 0 <= i < |ds| :: Parsed(ds[i])
    ensures MarksSnapshots(MergedSeries(ds, n, true), Offsets(ds))
    ensures |MergedSeries(ds, n, true)| == TotalCount(ds)
    ensures forall b | b in Offsets(ds) :: b < TotalCount(ds)
  {
    var before, d := ds[..|ds| - 1], ds[|ds| - 1];
    assert ds == before + [d];
    if before == [] {
      PieceFits(d, n, true);
      MergedSnoc([], d, n, true);
    } else {
      MergeMarks(before, n);
      OneMoreMark(before, d, n);
    }
  }

  lemma {:induction false} MergeLadders(ds: seq<Data>)
    requires forall i | 0 <= i < |ds| :: Parsed(ds[i])
    ensures |Times(ds)| == TotalCount(ds) && Laddered(Times(ds), Offsets(ds))
  {
    if ds != [] {
      MergeLadders(ds[..|ds| - 1]);
      OneMoreLadder(Times(ds[..|ds| - 1]), Offsets(ds[..|ds| - 1]), ds[|ds| - 1]);
    }
  }

  /** The data of a capture: a snapshot alone, or the merge of several. */
  ghost predicate IsCapture(ds: seq<Data>, m: Data) {
    && ds != [] && (forall i | 0 <= i < |ds| :: Parsed(ds[i]))
    && if |ds| == 1 then m == ds[0] else IsMerge(ds, m)
  }

  // Every snapshot keeps its own times.

  lemma {:induction false} ParseKeepsBase(p: Parser, lines: seq<Line>, classify: string -> bool)
    ensures Parse(p, lines, classify).base == p.base
  {
    if lines != [] {
      ParseKeepsBase(p, lines[..|lines| - 1], classify);
    }
  }

  lemma {:induction false} MergeKeepsTimes(ds: seq<Data>, k: nat, i: nat)
    requires k < |ds| && i < ds[k].sampleCount && forall x | 0 <= x < |ds| :: |ds[x].timestamps| == ds[x].sampleCount
    ensures |Offsets(ds)| == |ds| && |Times(ds)| == TotalCount(ds) && Offsets(ds)[k] + i < |Times(ds)|
    ensures Times(ds)[Offsets(ds)[k] + i] == ds[k].timestamps[i]
  {
    TimesFit(ds);
    TimesFit(ds[..|ds| - 1]);
    if k < |ds| - 1 {
      MergeKeepsTimes(ds[..|ds| - 1], k, i);
    }
  }

  lemma {:induction false} TimesFit(ds: seq<Data>)
    requires forall x | 0 <= x < |ds| :: |ds[x].timestamps| == ds[x].sampleCount
    ensures |Offsets(ds)| == |ds| && |Times(ds)| == TotalCount(ds)
  {
    if ds != [] {
      TimesFit(ds[..|ds| - 1]);
    }
  }

  ghost predicate AreParsed(files: seq<File>, ds: seq<Data>, classify: string -> bool) {
    |files| == |ds| && forall x | 0 <= x < |ds| :: ParseSingle(files[x].base, files[x].lines, classify) == Some(ds[x])
  }

  /** In a capture, sample `i` of snapshot `k` is `i` seconds after the start of that snapshot, as if it were alone. */
  lemma SnapshotsKeepTheirTimes(files: seq<File>, ds: seq<Data>, m: Data, classify: string -> bool, k: nat, i: nat)
    requires AreParsed(files, ds, classify) && IsCapture(ds, m) && k < |ds| && i < ds[k].sampleCount
    ensures |m.boundaries| == |ds| && m.boundaries[k] + i < |m.timestamps|
    ensures m.timestamps[m.boundaries[k] + i] == files[k].base + i as real
  {
    forall x | 0 <= x < |ds|
      ensures |ds[x].timestamps| == ds[x].sampleCount
    {
      assert Parsed(ds[x]);
    }
    StartsAtBase(files[k], classify);
    if |ds| > 1 {
      MergeKeepsTimes(ds, k, i);
    }
  }

  lemma StartsAtBase(f: File, classify: string -> bool)
    requires ParseSingle(f.base, f.lines, classify).Some?
    ensures var d := ParseSingle(f.base, f.lines, classify).value;
            && |d.timestamps| == d.sampleCount
            && forall i | 0 <= i < d.sampleCount :: d.timestamps[i] == f.base + i as real
  {
    ParseKeepsBase(Start(f.base), f.lines, classify);
  }

  /** A capture satisfies what `RatesAgreeExactly` asks of its data, whatever the counter did. */
  lemma CaptureIsMarked(ds: seq<Data>, m: Data, n: string)
    requires IsCapture(ds, m) && n in m.deltas && Counts(m.isCounter, n)
    ensures |m.timestamps| == |m.deltas[n]| && MarksSnapshots(m.deltas[n], Starts(m))
    ensures Laddered(m.timestamps, Starts(m)) && StrictWithin(m.timestamps, Starts(m))
  {
    if |ds| == 1 {
      OneMoreLadder([], [], m);
      assert [] + m.timestamps == m.timestamps && [] + [0] == [0];
    } else {
      MergeMarks(ds, n);
      MergeLadders(ds);
      assert |Offsets(ds)| > 0;
    }
  }

  lemma {:induction false} LadderWithin(ts: seq<real>, bounds: seq<nat>, lo: nat, i: nat)
    requires Laddered(ts, bounds) && lo <= i < |ts| && forall x | lo < x <= i :: x !in bounds
    ensures ts[i] == ts[lo] + (i - lo) as real
  {
    if lo < i {
      LadderWithin(ts, bounds, lo, i - 1);
    }
  }

  /** Every run of values, with its left edge, lies within one snapshot, so it is on the ladder. */
  lemma RunsAreOnLadder(deltas: seq<Slot>, ts: seq<real>, bounds: seq<nat>, b: Block)
    requires |ts| == |deltas| && MarksSnapshots(deltas, bounds) && Laddered(ts, bounds) && IsBlock(deltas, b)
    ensures OnLadder(b, ts)
  {
    forall x | b.LeftBound() < x < b.end
      ensures x !in bounds
    {
      if x in bounds {
        BoundaryIsNaN(deltas, bounds, x);
      }
    }
    forall i | b.LeftBound() <= i < b.end
      ensures ts[i] == ts[b.LeftBound()] + (i - b.LeftBound()) as real
    {
      LadderWithin(ts, bounds, b.LeftBound(), i);
    }
  }

  lemma RunPeakBound(deltas: seq<Slot>, ts: seq<real>, bounds: seq<nat>, blocks: seq<Block>, b: Block, peak: real)
    requires |ts| == |deltas| && MarksSnapshots(deltas, bounds) && Laddered(ts, bounds)
    requires IsBlock(deltas, b) && b in blocks && IsPeak(blocks, deltas, ts, PEAK_WINDOW, peak)
    requires Span(b, ts) >= PEAK_WINDOW
    ensures AtMostTwice(b, deltas, ts, peak)
  {
    RunsAreOnLadder(deltas, ts, bounds, b);
    AverageAtMostTwicePeak(blocks, b, deltas, ts, peak);
  }

  /** On a capture, any run of at least 900 s averages at most twice the reported peak. */
  lemma CapturePeakBound(ds: seq<Data>, m: Data, deltas: seq<Slot>, blocks: seq<Block>, b: Block, peak: real)
    requires IsCapture(ds, m) && RedoSeries(Some(m)) == Some(deltas)
    requires IsBlock(deltas, b) && b in blocks && IsPeak(blocks, deltas, m.timestamps, PEAK_WINDOW, peak)
    requires Span(b, m.timestamps) >= PEAK_WINDOW
    ensures AtMostTwice(b, deltas, m.timestamps, peak)
  {
    CaptureIsMarked(ds, m, REDO_COUNTER);
    RunPeakBound(deltas, m.timestamps, Starts(m), blocks, b, peak);
  }

  // The panel on a capture.

  lemma LadderIsInOrder(b: Block, ts: seq<real>)
    requires OnLadder(b, ts)
    ensures InOrder(b, ts)
  {
  }

  /** Within every run of values time goes forward, although snapshots may overlap. */
  lemma CaptureIsInOrder(ds: seq<Data>, m: Data, deltas: seq<Slot>, blocks: seq<Block>)
    requires IsCapture(ds, m) && RedoSeries(Some(m)) == Some(deltas) && IsBlocks(deltas, blocks)
    ensures AllInOrder(blocks, m.timestamps)
  {
    CaptureIsMarked(ds, m, REDO_COUNTER);
    forall k | 0 <= k < |blocks|
      ensures InOrder(blocks[k], m.timestamps)
    {
      assert blocks[k] in blocks;
      RunsAreOnLadder(deltas, m.timestamps, Starts(m), blocks[k]);
      LadderIsInOrder(blocks[k], m.timestamps);
    }
  }

  ghost predicate Ordered(blocks: seq<Block>, deltas: seq<Slot>, ts: seq<real>) {
    |ts| == |deltas| && InRange(blocks, |ts|) && AllInOrder(blocks, ts)
  }

  /** With a block of at least 900 s, the window is 900 s. */
  lemma LongBlockSetsWindow(blocks: seq<Block>, b: Block, deltas: seq<Slot>, ts: seq<real>, peak: real, window: real,
                            caption: Label)
    requires Ordered(blocks, deltas, ts) && IsPeakOf(blocks, deltas, ts, PEAK_WINDOW, peak, window, caption)
    requires b in blocks && b.start < b.end <= |ts| && Span(b, ts) >= PEAK_WINDOW && b.HasUsableDelta()
    ensures window == 900.0 && caption == FifteenMinute && IsPeak(blocks, deltas, ts, PEAK_WINDOW, peak)
  {
    var longest: real :| PeakGiven(blocks, deltas, ts, PEAK_WINDOW, longest, peak, window, caption);
    var k :| 0 <= k < |blocks| && blocks[k] == b;
    assert Span(blocks[k], ts) <= longest;
  }

  /** What is shown for a capture: every run of at least 900 s averages at most 1800/901 of the peak shown. */
  ghost predicate PeakBoundsRuns(blocks: seq<Block>, deltas: seq<Slot>, ts: seq<real>, peak: real)
    requires |ts| == |deltas| && InRange(blocks, |ts|)
  {
    forall k | 0 <= k < |blocks| && Span(blocks[k], ts) >= 900.0 :: AtMostTwice(blocks[k], deltas, ts, peak)
  }

  lemma LongIsUsable(deltas: seq<Slot>, b: Block, ts: seq<real>)
    requires IsBlock(deltas, b) && |ts| == |deltas| && Span(b, ts) > 0.0
    ensures b.HasUsableDelta()
  {
  }

  lemma CapturePeak(ds: seq<Data>, m: Data, deltas: seq<Slot>, blocks: seq<Block>, r: RedoRate)
    requires IsCapture(ds, m) && RedoSeries(Some(m)) == Some(deltas)
    requires IsBlocks(deltas, blocks) && InRange(blocks, |m.timestamps|)
    requires IsPeakOf(blocks, deltas, m.timestamps, PEAK_WINDOW, r.peak, r.window, r.caption)
    ensures PeakBoundsRuns(blocks, deltas, m.timestamps, r.peak)
  {
    CaptureIsInOrder(ds, m, deltas, blocks);
    forall k | 0 <= k < |blocks| && Span(blocks[k], m.timestamps) >= PEAK_WINDOW
      ensures AtMostTwice(blocks[k], deltas, m.timestamps, r.peak)
    {
      assert blocks[k] in blocks;
      LongIsUsable(deltas, blocks[k], m.timestamps);
      LongBlockSetsWindow(blocks, blocks[k], deltas, m.timestamps, r.peak, r.window, r.caption);
      CapturePeakBound(ds, m, deltas, blocks, blocks[k], r.peak);
    }
  }

  lemma CaptureIsComparable(ds: seq<Data>, m: Data, deltas: seq<Slot>)
    requires IsCapture(ds, m) && RedoSeries(Some(m)) == Some(deltas)
    ensures Comparable(m, deltas)
  {
    CaptureIsMarked(ds, m, REDO_COUNTER);
  }

  /** The panel and the generic rate on any capture, overlapping snapshots and resets of the counter included: the peak
      bounds the averages of long runs, and the two rates agree as far as `Agree` says. */
  method RateCapture(ghost ds: seq<Data>, m: Data) returns (r: RedoRate, rate: real, ok: bool, ghost blocks: seq<Block>)
    requires IsCapture(ds, m)
    ensures RedoSeries(Some(m)).None? ==> r == UNAVAILABLE
    ensures RedoSeries(Some(m)).Some? ==>
              var deltas := RedoSeries(Some(m)).value;
              && IsBlocks(deltas, blocks) && InRange(blocks, |m.timestamps|)
              && (r.ok ==> PeakBoundsRuns(blocks, deltas, m.timestamps, r.peak))
              && Total(Some(m), REDO_COUNTER).Some?
              && Agree(r.average, r.ok, rate, ok, SomeMissing(deltas, Starts(m), |deltas|), WasReset(deltas, |deltas|),
                       Total(Some(m), REDO_COUNTER).value)
  {
    r, blocks := ReadObservedRedoRate(Some(m));
    rate, ok := CounterRatePerSec(Some(m), REDO_COUNTER);
    if RedoSeries(Some(m)).Some? {
      PanelOnCapture(ds, m, RedoSeries(Some(m)).value, blocks, r, rate, ok);
    }
  }

  lemma PanelOnCapture(ds: seq<Data>, m: Data, deltas: seq<Slot>, blocks: seq<Block>, r: RedoRate, rate: real, ok: bool)
    requires IsCapture(ds, m) && RedoSeries(Some(m)) == Some(deltas)
    requires IsBlocks(deltas, blocks) && InRange(blocks, |m.timestamps|)
    requires IsRedoRate(deltas, m.timestamps, blocks, r)
    requires Total(Some(m), REDO_COUNTER).Some?
    requires IsRate(Total(Some(m), REDO_COUNTER).value, Seconds(Some(m)), rate, ok)
    ensures r.ok ==> PeakBoundsRuns(blocks, deltas, m.timestamps, r.peak)
    ensures Agree(r.average, r.ok, rate, ok, SomeMissing(deltas, Starts(m), |deltas|), WasReset(deltas, |deltas|),
                  Total(Some(m), REDO_COUNTER).value)
  {
    if r.ok {
      CapturePeak(ds, m, deltas, blocks, r);
    }
    CaptureIsComparable(ds, m, deltas);
    RatesAgreeExactly(m, deltas, blocks, r, rate, ok);
  }

  /** The two bursts are the redo counter of a snapshot as the parser leaves it. */
  lemma BurstsAreACapture()
    ensures var m := Data([REDO_COUNTER], SAMPLES, BurstTimes(), map[REDO_COUNTER := TwoBursts()],
                          map[REDO_COUNTER := true], [0]);
            IsCapture([m], m) && RedoSeries(Some(m)) == Some(TwoBursts()) && IsBlocks(TwoBursts(), [BurstBlock()])
  {
    var b := BurstBlock();
    assert b in [b] && IsBlock(TwoBursts(), b);
  }
}
