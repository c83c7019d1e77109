/** Average and rolling-peak write rates of the redo log.  Source: render/redo_sizing.go. */
module RedoSizing {
  import opened Prelude
  import opened Mysqladmin
  import opened FindingsInputs

  const REDO_COUNTER := "Innodb_os_log_written"
  const PEAK_WINDOW := 900.0

  /** A run of finite samples, as a half-open index range. */
  datatype Block = Block(start: nat, end: nat, skipFirst: bool)
  {
    predicate HasUsableDelta() {
      end - start >= 1 && (skipFirst ==> end - start >= 2)
    }

    function LeftBound(): nat {
      if skipFirst || start <= 0 then start else start - 1
    }

    function FirstIncluded(): nat {
      if skipFirst then start + 1 else start
    }
  }

  function Clamp(v: real): real {
    if v < 0.0 then 0.0 else v
  }

  function Bytes(s: Slot): real {
    Clamp(Number(s))
  }

  /** The clamped deltas with indices in [lo, hi). */
  function SumBytes(deltas: seq<Slot>, lo: nat, hi: nat): real
    requires hi <= |deltas|
  {
    if hi <= lo then 0.0 else SumBytes(deltas, lo, hi - 1) + Bytes(deltas[hi - 1])
  }

  lemma {:induction false} SumSplit(deltas: seq<Slot>, lo: nat, mid: nat, hi: nat)
    requires lo <= mid <= hi <= |deltas|
    ensures SumBytes(deltas, lo, hi) == SumBytes(deltas, lo, mid) + SumBytes(deltas, mid, hi)
    decreases hi
  {
    if mid < hi {
      SumSplit(deltas, lo, mid, hi - 1);
    }
  }

  lemma {:induction false} SumNonNegative(deltas: seq<Slot>, lo: nat, hi: nat)
    requires hi <= |deltas|
    ensures SumBytes(deltas, lo, hi) >= 0.0
  {
    if lo < hi {
      SumNonNegative(deltas, lo, hi - 1);
    }
  }

  /** Time does not go back within the block and from its left edge; across blocks it may. */
  ghost predicate InOrder(b: Block, ts: seq<real>) {
    b.end <= |ts| && forall i, j | b.LeftBound() <= i <= j < b.end :: ts[i] <= ts[j]
  }

  ghost predicate AllInOrder(blocks: seq<Block>, ts: seq<real>) {
    forall k | 0 <= k < |blocks| :: InOrder(blocks[k], ts)
  }

  // Blocks.

  ghost predicate IsBlock(deltas: seq<Slot>, b: Block) {
    && b.start < b.end <= |deltas| && (b.skipFirst <==> b.start == 0)
    && (forall i | b.start <= i < b.end :: deltas[i].Val?)
    && (b.start > 0 ==> deltas[b.start - 1].NaN?)
    && (b.end < |deltas| ==> deltas[b.end].NaN?)
  }

  /** All maximal runs of values, in order. */
  ghost predicate IsBlocks(deltas: seq<Slot>, blocks: seq<Block>) {
    && (forall b | b in blocks :: IsBlock(deltas, b))
    && (forall k | 0 < k < |blocks| :: blocks[k - 1].end < blocks[k].start)
    && (forall i | 0 <= i < |deltas| && deltas[i].Val? :: exists b :: b in blocks && b.start <= i < b.end)
  }

  /** The blocks account for all values before index `m`. */
  ghost predicate BlocksUpTo(deltas: seq<Slot>, blocks: seq<Block>, m: nat) {
    && m <= |deltas|
    && (forall b | b in blocks :: IsBlock(deltas, b) && b.end <= m)
    && (forall k | 0 < k < |blocks| :: blocks[k - 1].end < blocks[k].start)
    && (forall i | 0 <= i < m && deltas[i].Val? :: exists b :: b in blocks && b.start <= i < b.end)
  }

  /** Closing the run [m, i) adds its block. */
  lemma CloseRun(deltas: seq<Slot>, blocks: seq<Block>, m: nat, i: nat)
    requires BlocksUpTo(deltas, blocks, m) && m < i <= |deltas|
    requires m > 0 ==> deltas[m - 1].NaN?
    requires forall j | m <= j < i :: deltas[j].Val?
    requires i < |deltas| ==> deltas[i].NaN?
    ensures BlocksUpTo(deltas, blocks + [Block(m, i, m == 0)], i)
  {
    var b := Block(m, i, m == 0);
    var all := blocks + [b];
    assert IsBlock(deltas, b);
    assert forall c | c in all :: c == b || c in blocks;
    if blocks != [] {
      assert blocks[|blocks| - 1] in blocks;
    }
    forall j | 0 <= j < i && deltas[j].Val?
      ensures exists c :: c in all && c.start <= j < c.end
    {
      if j < m {
        var c :| c in blocks && c.start <= j < c.end;
        assert c in all;
      } else {
        assert b in all;
      }
    }
  }

  method SplitBlocks(deltas: seq<Slot>) returns (blocks: seq<Block>)
    ensures IsBlocks(deltas, blocks) && InRange(blocks, |deltas|)
  {
    blocks := [];
    var startIdx := -1;
    for i := 0 to |deltas|
      invariant -1 <= startIdx < i
      invariant BlocksUpTo(deltas, blocks, if startIdx >= 0 then startIdx else i)
      invariant startIdx < 0 && i > 0 ==> deltas[i - 1].NaN?
      invariant startIdx > 0 ==> deltas[startIdx - 1].NaN?
      invariant startIdx >= 0 ==> forall j | startIdx <= j < i :: deltas[j].Val?
    {
      if deltas[i].NaN? {
        if startIdx >= 0 {
          CloseRun(deltas, blocks, startIdx, i);
          blocks := blocks + [Block(startIdx, i, startIdx == 0)];
          startIdx := -1;
        }
        continue;
      }
      if startIdx < 0 {
        startIdx := i;
      }
    }
    if startIdx >= 0 {
      CloseRun(deltas, blocks, startIdx, |deltas|);
      blocks := blocks + [Block(startIdx, |deltas|, startIdx == 0)];
    }
    forall k | 0 <= k < |blocks|
      ensures blocks[k].start < blocks[k].end <= |deltas|
    {
      assert blocks[k] in blocks;
    }
  }

  function Span(b: Block, ts: seq<real>): real
    requires b.start < b.end <= |ts|
  {
    ts[b.end - 1] - ts[b.LeftBound()]
  }

  ghost predicate InRange(blocks: seq<Block>, n: nat) {
    forall k | 0 <= k < |blocks| :: blocks[k].start < blocks[k].end <= n
  }

  // The average.

  predicate Observed(b: Block, ts: seq<real>)
    requires b.start < b.end <= |ts|
  {
    b.HasUsableDelta() && Span(b, ts) > 0.0
  }

  function BytesUpTo(blocks: seq<Block>, deltas: seq<Slot>, ts: seq<real>, k: nat): real
    requires InRange(blocks, |ts|) && |ts| == |deltas| && k <= |blocks|
  {
    if k == 0 then 0.0
    else BytesUpTo(blocks, deltas, ts, k - 1) +
         var b := blocks[k - 1];
         if Observed(b, ts) then SumBytes(deltas, b.FirstIncluded(), b.end) else 0.0
  }

  function SecondsOver(blocks: seq<Block>, ts: seq<real>, k: nat): real
    requires InRange(blocks, |ts|) && k <= |blocks|
  {
    if k == 0 then 0.0
    else SecondsOver(blocks, ts, k - 1) + if Observed(blocks[k - 1], ts) then Span(blocks[k - 1], ts) else 0.0
  }

  /** A block in which no time passes counts for nothing, whatever it holds. */
  lemma TimelessBlockIsIgnored(blocks: seq<Block>, deltas: seq<Slot>, ts: seq<real>, k: nat)
    requires InRange(blocks, |ts|) && |ts| == |deltas| && k < |blocks|
    requires ts[blocks[k].end - 1] <= ts[blocks[k].LeftBound()]
    ensures BytesUpTo(blocks, deltas, ts, k + 1) == BytesUpTo(blocks, deltas, ts, k)
    ensures SecondsOver(blocks, ts, k + 1) == SecondsOver(blocks, ts, k)
  {
  }

  ghost predicate Writes(b: Block, deltas: seq<Slot>)
    requires b.end <= |deltas|
  {
    exists i | b.FirstIncluded() <= i < b.end :: Bytes(deltas[i]) > 0.0
  }

  ghost predicate AnyUsable(blocks: seq<Block>, n: nat)
    requires n <= |blocks|
  {
    exists k | 0 <= k < n :: blocks[k].HasUsableDelta()
  }

  ghost predicate AnyWrites(blocks: seq<Block>, deltas: seq<Slot>, ts: seq<real>, n: nat)
    requires InRange(blocks, |ts|) && |ts| == |deltas| && n <= |blocks|
  {
    exists k | 0 <= k < n :: Observed(blocks[k], ts) && Writes(blocks[k], deltas)
  }

  method SumBlocks(blocks: seq<Block>, deltas: seq<Slot>, ts: seq<real>)
    returns (totalBytes: real, totalSeconds: real, anyData: bool, anyWrites: bool)
    requires InRange(blocks, |ts|) && |ts| == |deltas|
    ensures totalBytes == BytesUpTo(blocks, deltas, ts, |blocks|)
    ensures totalSeconds == SecondsOver(blocks, ts, |blocks|)
    ensures anyData <==> AnyUsable(blocks, |blocks|)
    ensures anyWrites <==> AnyWrites(blocks, deltas, ts, |blocks|)
    ensures totalSeconds > 0.0 ==> anyData
  {
    totalBytes, totalSeconds, anyData, anyWrites := 0.0, 0.0, false, false;
    for k := 0 to |blocks|
      invariant totalBytes == BytesUpTo(blocks, deltas, ts, k)
      invariant totalSeconds == SecondsOver(blocks, ts, k)
      invariant anyData <==> AnyUsable(blocks, k)
      invariant anyWrites <==> AnyWrites(blocks, deltas, ts, k)
      invariant totalSeconds > 0.0 ==> anyData
    {
      var b := blocks[k];
      if !b.HasUsableDelta() {
        continue;
      }
      anyData := true;
      var span := ts[b.end - 1] - ts[b.LeftBound()];
      if span <= 0.0 {
        continue;
      }
      totalSeconds := totalSeconds + span;
      var bytes, writes := SumBlock(b, deltas);
      totalBytes := totalBytes + bytes;
      anyWrites := anyWrites || writes;
    }
  }

  method SumBlock(b: Block, deltas: seq<Slot>) returns (bytes: real, writes: bool)
    requires b.start < b.end <= |deltas|
    ensures bytes == SumBytes(deltas, b.FirstIncluded(), b.end) && (writes <==> Writes(b, deltas))
  {
    bytes, writes := 0.0, false;
    var i := b.FirstIncluded();
    while i < b.end
      invariant b.FirstIncluded() <= i <= b.end
      invariant bytes == SumBytes(deltas, b.FirstIncluded(), i)
      invariant writes <==> exists x | b.FirstIncluded() <= x < i :: Bytes(deltas[x]) > 0.0
    {
      var d := Bytes(deltas[i]);
      bytes := bytes + d;
      if d > 0.0 {
        writes := true;
      }
      i := i + 1;
    }
  }

  // The rolling peak.

  /** The samples from `j` to `i` cover at least the window. */
  predicate Covers(ts: seq<real>, window: real, j: nat, i: nat)
    requires 1 <= j <= i < |ts|
  {
    ts[i] - ts[j - 1] >= window
  }

  /** The first sample that may open a window in the block; sample 0 has no left edge. */
  function Opening(b: Block): nat {
    if b.FirstIncluded() == 0 then 1 else b.FirstIncluded()
  }

  /** The samples from `j` to `i` are the shortest window of the block that ends at `i` and is long enough. */
  ghost predicate IsWindow(b: Block, ts: seq<real>, window: real, j: nat, i: nat) {
    && Opening(b) <= j <= i < b.end <= |ts| && Covers(ts, window, j, i)
    && forall k | j < k <= i :: !Covers(ts, window, k, i)
  }

  function Rate(deltas: seq<Slot>, ts: seq<real>, j: nat, i: nat): real
    requires 1 <= j <= i < |ts| == |deltas| && ts[i] != ts[j - 1]
  {
    SumBytes(deltas, j, i + 1) / (ts[i] - ts[j - 1])
  }

  ghost predicate Bounds(b: Block, deltas: seq<Slot>, ts: seq<real>, window: real, peak: real)
    requires |ts| == |deltas| && window > 0.0
  {
    forall j, i | IsWindow(b, ts, window, j, i) :: Rate(deltas, ts, j, i) <= peak
  }

  ghost predicate Attains(b: Block, deltas: seq<Slot>, ts: seq<real>, window: real, peak: real)
    requires |ts| == |deltas| && window > 0.0
  {
    exists j, i :: IsWindow(b, ts, window, j, i) && Rate(deltas, ts, j, i) == peak
  }

  /** The largest rate over all blocks and ends of the shortest long-enough window; 0 if there is none. */
  ghost predicate IsPeak(blocks: seq<Block>, deltas: seq<Slot>, ts: seq<real>, window: real, peak: real)
    requires |ts| == |deltas| && window > 0.0
  {
    && (forall k | 0 <= k < |blocks| :: Bounds(blocks[k], deltas, ts, window, peak))
    && (peak == 0.0 || exists k | 0 <= k < |blocks| :: Attains(blocks[k], deltas, ts, window, peak))
    && peak >= 0.0
  }

  /** Moves the left end of the window as far right as the window allows. */
  method Trim(ghost b: Block, deltas: seq<Slot>, ts: seq<real>, window: real, sumStart: nat, sumBytes: real, i: nat)
    returns (j: nat, bytes: real)
    requires Opening(b) <= sumStart <= i < b.end <= |ts| == |deltas| && window > 0.0
    requires sumBytes == SumBytes(deltas, sumStart, i + 1)
    ensures sumStart <= j <= i && bytes == SumBytes(deltas, j, i + 1)
    ensures InOrder(b, ts) ==> forall k | j < k <= i :: !Covers(ts, window, k, i)
    ensures j > sumStart ==> Covers(ts, window, j, i)
  {
    j, bytes := sumStart, sumBytes;
    while j < i && ts[i] - ts[j] >= window
      invariant sumStart <= j <= i && bytes == SumBytes(deltas, j, i + 1)
      invariant j > sumStart ==> Covers(ts, window, j, i)
    {
      SumSplit(deltas, j, j + 1, i + 1);
      bytes := bytes - Bytes(deltas[j]);
      j := j + 1;
    }
  }

  ghost predicate BoundsAt(b: Block, deltas: seq<Slot>, ts: seq<real>, window: real, i: nat, peak: real)
    requires |ts| == |deltas| && window > 0.0
  {
    forall j | IsWindow(b, ts, window, j, i) :: Rate(deltas, ts, j, i) <= peak
  }

  lemma BoundsAtGrow(b: Block, deltas: seq<Slot>, ts: seq<real>, window: real, i: nat, low: real, high: real)
    requires |ts| == |deltas| && window > 0.0 && BoundsAt(b, deltas, ts, window, i, low) && low <= high
    ensures BoundsAt(b, deltas, ts, window, i, high)
  {
  }

  /** One sample further: the shortest window that ends there, and its rate if it is long enough. */
  method RollSample(ghost b: Block, deltas: seq<Slot>, ts: seq<real>, window: real, sumStart: nat, sumBytes: real,
                    i: nat, best: real)
    returns (j: nat, bytes: real, peak: real)
    requires b.end <= |ts| == |deltas| && window > 0.0
    requires Opening(b) <= sumStart <= i < b.end && sumBytes == SumBytes(deltas, sumStart, i)
    requires InOrder(b, ts) && sumStart > Opening(b) ==> sumStart < i && Covers(ts, window, sumStart, i - 1)
    ensures Opening(b) <= j <= i && bytes == SumBytes(deltas, j, i + 1) && peak >= best
    ensures InOrder(b, ts) && j > Opening(b) ==> Covers(ts, window, j, i)
    ensures InOrder(b, ts) ==> peak == best || Attains(b, deltas, ts, window, peak)
    ensures InOrder(b, ts) ==> BoundsAt(b, deltas, ts, window, i, peak)
  {
    j, bytes := Trim(b, deltas, ts, window, sumStart, sumBytes + Bytes(deltas[i]), i);
    peak := best;
    var actualSpan := ts[i] - ts[j - 1];
    if actualSpan < window {
      return;
    }
    assert InOrder(b, ts) ==> IsWindow(b, ts, window, j, i);
    var rate := bytes / actualSpan;
    if rate > peak {
      peak := rate;
    }
  }

  method RollBlock(b: Block, deltas: seq<Slot>, ts: seq<real>, window: real, best: real) returns (peak: real)
    requires b.start < b.end <= |ts| == |deltas| && window > 0.0
    ensures peak >= best
    ensures InOrder(b, ts) ==> Bounds(b, deltas, ts, window, peak)
    ensures InOrder(b, ts) ==> peak == best || Attains(b, deltas, ts, window, peak)
  {
    peak := best;
    var startI := b.FirstIncluded();
    var sumStart, sumBytes := startI, 0.0;
    for i := startI to b.end
      invariant i == 0 ==> sumStart == 0
      invariant i > 0 ==> Opening(b) <= sumStart <= i
      invariant sumBytes == SumBytes(deltas, sumStart, i)
      invariant InOrder(b, ts) && sumStart > Opening(b) ==> sumStart < i && Covers(ts, window, sumStart, i - 1)
      invariant peak >= best
      invariant InOrder(b, ts) ==> peak == best || Attains(b, deltas, ts, window, peak)
      invariant InOrder(b, ts) ==> forall e: nat | e < i :: BoundsAt(b, deltas, ts, window, e, peak)
    {
      if i == 0 {
        sumStart := 1;
        continue;
      }
      ghost var low := peak;
      sumStart, sumBytes, peak := RollSample(b, deltas, ts, window, sumStart, sumBytes, i, peak);
      forall e: nat | InOrder(b, ts) && e < i
        ensures BoundsAt(b, deltas, ts, window, e, peak)
      {
        assert BoundsAt(b, deltas, ts, window, e, low);
        BoundsAtGrow(b, deltas, ts, window, e, low, peak);
      }
    }
    assert forall j, e: nat | InOrder(b, ts) && IsWindow(b, ts, window, j, e) ::
             BoundsAt(b, deltas, ts, window, e, peak);
  }

  datatype Label = NoLabel | FifteenMinute | Available(seconds: int)

  /** The window in use: the target, or the longest usable block if none is as long. */
  ghost predicate IsLongest(blocks: seq<Block>, ts: seq<real>, longest: real)
    requires InRange(blocks, |ts|)
  {
    && longest >= 0.0
    && (forall k | 0 <= k < |blocks| && blocks[k].HasUsableDelta() :: Span(blocks[k], ts) <= longest)
    && (longest == 0.0 || exists k | 0 <= k < |blocks| && blocks[k].HasUsableDelta() :: Span(blocks[k], ts) == longest)
  }

  /** The longest usable block, in seconds. */
  method LongestBlock(blocks: seq<Block>, ts: seq<real>) returns (longest: real)
    requires InRange(blocks, |ts|)
    ensures IsLongest(blocks, ts, longest)
  {
    longest := 0.0;
    for k := 0 to |blocks|
      invariant longest >= 0.0
      invariant forall x | 0 <= x < k && blocks[x].HasUsableDelta() :: Span(blocks[x], ts) <= longest
      invariant longest == 0.0 || exists x | 0 <= x < k && blocks[x].HasUsableDelta() :: Span(blocks[x], ts) == longest
    {
      if !blocks[k].HasUsableDelta() {
        continue;
      }
      var span := ts[blocks[k].end - 1] - ts[blocks[k].LeftBound()];
      if span > longest {
        longest := span;
      }
    }
  }

  /** What the peak, its window and its caption must be; the peak where time does not go back within a block. */
  ghost predicate IsPeakOf(blocks: seq<Block>, deltas: seq<Slot>, ts: seq<real>, targetWindow: real,
                           peak: real, window: real, caption: Label)
    requires InRange(blocks, |ts|) && |ts| == |deltas| && targetWindow > 0.0
  {
    exists longest: real :: PeakGiven(blocks, deltas, ts, targetWindow, longest, peak, window, caption)
  }

  ghost predicate PeakGiven(blocks: seq<Block>, deltas: seq<Slot>, ts: seq<real>, targetWindow: real, longest: real,
                            peak: real, window: real, caption: Label)
    requires InRange(blocks, |ts|) && |ts| == |deltas| && targetWindow > 0.0
  {
    && IsLongest(blocks, ts, longest)
    && if longest <= 0.0 then peak == window == 0.0 && caption == NoLabel
       else && window == (if longest < targetWindow then longest else targetWindow)
            && caption == (if longest < targetWindow then Available(longest.Floor) else FifteenMinute)
            && (AllInOrder(blocks, ts) ==> IsPeak(blocks, deltas, ts, window, peak))
  }

  method ComputeRollingPeak(blocks: seq<Block>, deltas: seq<Slot>, ts: seq<real>, targetWindow: real)
    returns (peakRate: real, peakWindow: real, peakLabel: Label)
    requires InRange(blocks, |ts|) && |ts| == |deltas| && targetWindow > 0.0
    ensures IsPeakOf(blocks, deltas, ts, targetWindow, peakRate, peakWindow, peakLabel)
  {
    var longest := LongestBlock(blocks, ts);
    if longest <= 0.0 {
      assert PeakGiven(blocks, deltas, ts, targetWindow, longest, 0.0, 0.0, NoLabel);
      return 0.0, 0.0, NoLabel;
    }
    peakWindow, peakLabel := targetWindow, FifteenMinute;
    if longest < targetWindow {
      peakWindow, peakLabel := longest, Available(longest.Floor);
    }
    peakRate := 0.0;
    for k := 0 to |blocks|
      invariant peakRate >= 0.0
      invariant AllInOrder(blocks, ts) ==> forall x | 0 <= x < k :: Bounds(blocks[x], deltas, ts, peakWindow, peakRate)
      invariant AllInOrder(blocks, ts) ==>
                  peakRate == 0.0 || exists x | 0 <= x < k :: Attains(blocks[x], deltas, ts, peakWindow, peakRate)
    {
      ghost var best := peakRate;
      peakRate := RollBlock(blocks[k], deltas, ts, peakWindow, peakRate);
      forall x | AllInOrder(blocks, ts) && 0 <= x < k
        ensures Bounds(blocks[x], deltas, ts, peakWindow, peakRate)
      {
        BoundsGrow(blocks[x], deltas, ts, peakWindow, best, peakRate);
      }
    }
    assert PeakGiven(blocks, deltas, ts, targetWindow, longest, peakRate, peakWindow, peakLabel);
  }

  lemma BoundsGrow(b: Block, deltas: seq<Slot>, ts: seq<real>, window: real, low: real, high: real)
    requires |ts| == |deltas| && window > 0.0 && Bounds(b, deltas, ts, window, low) && low <= high
    ensures Bounds(b, deltas, ts, window, high)
  {
  }

  datatype RedoRate = RedoRate(average: real, peak: real, window: real, caption: Label, ok: bool, anyWrites: bool)

  const UNAVAILABLE := RedoRate(0.0, 0.0, 0.0, NoLabel, false, false)

  /** The redo counter's series, if the data are fit to compute a rate from. */
  function RedoSeries(m: Option<Data>): Option<seq<Slot>> {
    if m.None? || REDO_COUNTER !in m.value.deltas then None else
    var deltas := m.value.deltas[REDO_COUNTER];
    if |deltas| < 2 || !Counts(m.value.isCounter, REDO_COUNTER) || |m.value.timestamps| != |deltas| then None
    else Some(deltas)
  }

  /** The rates for a given number of bytes and seconds. */
  ghost predicate IsRateOf(deltas: seq<Slot>, ts: seq<real>, blocks: seq<Block>, bytes: real, seconds: real,
                           r: RedoRate)
    requires InRange(blocks, |ts|) && |ts| == |deltas|
  {
    && r.ok && r.average * seconds == bytes
    && IsPeakOf(blocks, deltas, ts, PEAK_WINDOW, r.peak, r.window, r.caption)
    && (r.anyWrites <==> AnyWrites(blocks, deltas, ts, |blocks|))
  }

  ghost predicate IsRedoRate(deltas: seq<Slot>, ts: seq<real>, blocks: seq<Block>, r: RedoRate)
    requires InRange(blocks, |ts|) && |ts| == |deltas|
  {
    var seconds := SecondsOver(blocks, ts, |blocks|);
    if seconds <= 0.0 then r == UNAVAILABLE
    else IsRateOf(deltas, ts, blocks, BytesUpTo(blocks, deltas, ts, |blocks|), seconds, r)
  }

  method ReadObservedRedoRate(m: Option<Data>) returns (r: RedoRate, ghost blocks: seq<Block>)
    ensures RedoSeries(m).None? ==> r == UNAVAILABLE
    ensures RedoSeries(m).Some? ==> IsBlocks(RedoSeries(m).value, blocks) && InRange(blocks, |m.value.timestamps|)
    ensures RedoSeries(m).Some? ==> IsRedoRate(RedoSeries(m).value, m.value.timestamps, blocks, r)
    ensures RedoSeries(m).Some?
            <==> && m.Some? && "Innodb_os_log_written" in m.value.deltas
                 && Counts(m.value.isCounter, "Innodb_os_log_written")
                 && |m.value.timestamps| == |m.value.deltas["Innodb_os_log_written"]| >= 2
    ensures RedoSeries(m).Some? ==> RedoSeries(m).value == m.value.deltas["Innodb_os_log_written"]
  {
    blocks := [];
    if m.None? || REDO_COUNTER !in m.value.deltas {
      return UNAVAILABLE, blocks;
    }
    var deltas, ts := m.value.deltas[REDO_COUNTER], m.value.timestamps;
    if |deltas| < 2 || !Counts(m.value.isCounter, REDO_COUNTER) || |ts| != |deltas| {
      return UNAVAILABLE, blocks;
    }
    var found := SplitBlocks(deltas);
    blocks := found;
    r := RateOfBlocks(deltas, ts, found);
  }

  method RateOfBlocks(deltas: seq<Slot>, ts: seq<real>, blocks: seq<Block>) returns (r: RedoRate)
    requires InRange(blocks, |ts|) && |ts| == |deltas|
    ensures IsRedoRate(deltas, ts, blocks, r)
  {
    var totalBytes, totalSeconds, anyData, anyWrites := SumBlocks(blocks, deltas, ts);
    if !anyData || totalSeconds <= 0.0 {
      return UNAVAILABLE;
    }
    r := CombineRates(deltas, ts, blocks, totalBytes, totalSeconds, anyWrites);
  }

  method CombineRates(deltas: seq<Slot>, ts: seq<real>, blocks: seq<Block>, totalBytes: real, totalSeconds: real,
                    anyWrites: bool)
    returns (r: RedoRate)
    requires InRange(blocks, |ts|) && |ts| == |deltas| && totalSeconds > 0.0
    requires anyWrites <==> AnyWrites(blocks, deltas, ts, |blocks|)
    ensures IsRateOf(deltas, ts, blocks, totalBytes, totalSeconds, r)
  {
    var peak, window, caption := ComputeRollingPeak(blocks, deltas, ts, PEAK_WINDOW);
    r := RedoRate(Quotient(totalBytes, totalSeconds), peak, window, caption, true, anyWrites);
  }

  function Quotient(a: real, b: real): (q: real)
    requires b > 0.0
    ensures q * b == a
  {
    a / b
  }
}
