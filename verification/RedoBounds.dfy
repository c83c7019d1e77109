/** How the peak relates to the average: not as the source's comment has it, but within a factor of two. */
module RedoBounds {
  import opened Prelude
  import opened Mysqladmin
  import opened RedoSizing

  /** Mixing in a second quantity does not raise a ratio exactly when its own ratio is no higher. */
  lemma MediantAtMost(a: real, b: real, d: real, e: real)
    requires d > 0.0 && e > 0.0
    ensures (a + b) / (d + e) <= b / e <==> a / d <= b / e
  {
    var y := b / e;
    assert y * (d + e) == y * d + y * e == y * d + b;
    RatioAtMost(a, d, y);
    RatioAtMost(a + b, d + e, y);
  }

  lemma RatioAtMost(a: real, d: real, y: real)
    requires d > 0.0
    ensures a / d <= y <==> a <= y * d
  {
    var z := a / d;
    assert z * d == a;
    if z <= y {
      assert z * d <= y * d;
    } else {
      assert z * d > y * d;
    }
  }

  /** Widening a window to the left does not raise its rate exactly when the stretch added is no faster than the
      window was.  That larger windows only dilute is not so in general. */
  lemma WideningDilutesExactly(deltas: seq<Slot>, ts: seq<real>, k: nat, j: nat, i: nat)
    requires 1 <= k < j <= i < |ts| == |deltas|
    requires ts[k - 1] < ts[j - 1] < ts[i]
    ensures Rate(deltas, ts, k, i) <= Rate(deltas, ts, j, i)
            <==> SumBytes(deltas, k, j) / (ts[j - 1] - ts[k - 1]) <= Rate(deltas, ts, j, i)
  {
    SumSplit(deltas, k, j, i + 1);
    MediantAtMost(SumBytes(deltas, k, j), SumBytes(deltas, j, i + 1), ts[j - 1] - ts[k - 1], ts[i] - ts[j - 1]);
  }

  const SAMPLES := 902

  /** Two bursts, at the ends of a block that is a second longer than the window. */
  function TwoBursts(): seq<Slot> {
    seq(SAMPLES, i => if i == 1 || i == SAMPLES - 1 then Val(900.0) else Val(0.0))
  }

  function BurstTimes(): seq<real> {
    Ladder(0.0, SAMPLES)
  }

  function BurstBlock(): Block {
    Block(0, SAMPLES, true)
  }

  function BurstBytes(lo: nat, hi: nat): real {
    (if lo <= 1 < hi then 900.0 else 0.0) + (if lo < SAMPLES <= hi then 900.0 else 0.0)
  }

  lemma {:induction false} BurstSum(lo: nat, hi: nat)
    requires 1 <= lo && hi <= SAMPLES
    ensures SumBytes(TwoBursts(), lo, hi) == BurstBytes(lo, hi)
  {
    if lo < hi {
      BurstSum(lo, hi - 1);
      assert Bytes(TwoBursts()[hi - 1]) == if hi == 2 || hi == SAMPLES then 900.0 else 0.0;
    }
  }

  lemma BurstWindow(j: nat, i: nat)
    requires IsWindow(BurstBlock(), BurstTimes(), PEAK_WINDOW, j, i)
    ensures (i == 900 || i == 901) && j == i - 899
    ensures Rate(TwoBursts(), BurstTimes(), j, i) == 1.0
  {
    assert i >= 900;
    assert Covers(BurstTimes(), PEAK_WINDOW, i - 899, i);
    assert BurstTimes()[i] - BurstTimes()[j - 1] == (i - j + 1) as real;
    BurstSum(j, i + 1);
  }

  /** The peak is 1, while 1800 bytes in 901 seconds are an average of nearly 2: below the average, and by exactly the
      factor that bounds it. */
  lemma PeakCanBeBelowAverage(peak: real)
    ensures IsPeak([BurstBlock()], TwoBursts(), BurstTimes(), PEAK_WINDOW, peak) <==> peak == 1.0
    ensures Span(BurstBlock(), BurstTimes()) == 901.0 && SumBytes(TwoBursts(), 1, SAMPLES) == 1800.0
  {
    var b := BurstBlock();
    assert [b][0] == b;
    BurstSum(1, SAMPLES);
    forall j, i | IsWindow(b, BurstTimes(), PEAK_WINDOW, j, i)
      ensures Rate(TwoBursts(), BurstTimes(), j, i) == 1.0
    {
      BurstWindow(j, i);
    }
    BurstIsWindow();
    assert Attains(b, TwoBursts(), BurstTimes(), PEAK_WINDOW, 1.0);
    if IsPeak([b], TwoBursts(), BurstTimes(), PEAK_WINDOW, peak) {
      assert Bounds(b, TwoBursts(), BurstTimes(), PEAK_WINDOW, peak);
      assert Rate(TwoBursts(), BurstTimes(), 1, 900) <= peak;
    }
  }

  lemma BurstIsWindow()
    ensures IsWindow(BurstBlock(), BurstTimes(), PEAK_WINDOW, 1, 900)
  {
    assert Covers(BurstTimes(), PEAK_WINDOW, 1, 900);
  }

  // On the one-second ladder.

  /** Within the block, and from its left edge, samples are a second apart. */
  ghost predicate OnLadder(b: Block, ts: seq<real>) {
    && b.start < b.end <= |ts| && (b.skipFirst || b.start > 0)
    && forall i | b.LeftBound() <= i < b.end :: ts[i] == ts[b.LeftBound()] + (i - b.LeftBound()) as real
  }

  const WINDOW := 900

  /** The window that ends at `i` is the last 900 deltas. */
  lemma LadderWindow(b: Block, deltas: seq<Slot>, ts: seq<real>, i: nat, peak: real)
    requires OnLadder(b, ts) && |ts| == |deltas| && Bounds(b, deltas, ts, PEAK_WINDOW, peak)
    requires b.LeftBound() + WINDOW <= i < b.end
    ensures SumBytes(deltas, i + 1 - WINDOW, i + 1) <= 900.0 * peak
  {
    var j := i + 1 - WINDOW;
    assert ts[j - 1] == ts[i] - 900.0;
    assert IsWindow(b, ts, PEAK_WINDOW, j, i);
    assert Rate(deltas, ts, j, i) <= peak;
  }

  /** The bytes that `c` windows can hold. */
  function Hold(c: nat, peak: real): real {
    if c == 0 then 0.0 else Hold(c - 1, peak) + 900.0 * peak
  }

  lemma {:induction false} HoldIsProduct(c: nat, peak: real)
    ensures Hold(c, peak) == 900.0 * (c as real * peak)
  {
    if c > 0 {
      HoldIsProduct(c - 1, peak);
      OneMore((c - 1) as real, c as real, peak);
    }
  }

  lemma OneMore(x: real, y: real, k: real)
    requires y == x + 1.0
    ensures y * k == x * k + k
  {
  }

  lemma {:induction false} FullWindows(b: Block, deltas: seq<Slot>, ts: seq<real>, q: nat, peak: real)
    requires OnLadder(b, ts) && |ts| == |deltas| && Bounds(b, deltas, ts, PEAK_WINDOW, peak)
    requires b.FirstIncluded() + WINDOW * q <= b.end
    ensures SumBytes(deltas, b.FirstIncluded(), b.FirstIncluded() + WINDOW * q) <= Hold(q, peak)
  {
    if q > 0 {
      var lo := b.FirstIncluded();
      var mid, hi := lo + WINDOW * (q - 1), lo + WINDOW * q;
      assert hi == mid + WINDOW;
      FullWindows(b, deltas, ts, q - 1, peak);
      LadderWindow(b, deltas, ts, hi - 1, peak);
      SumSplit(deltas, lo, mid, hi);
      assert SumBytes(deltas, mid, hi) <= 900.0 * peak;
    }
  }

  lemma LadderSpan(b: Block, ts: seq<real>)
    requires OnLadder(b, ts)
    ensures Span(b, ts) == (b.end - b.FirstIncluded()) as real
  {
    assert b.LeftBound() == b.FirstIncluded() - 1;
    assert ts[b.end - 1] == ts[b.LeftBound()] + (b.end - 1 - b.LeftBound()) as real;
  }

  /** As many windows as it takes cover the block: full ones from the left, and one at the right end. */
  lemma CoveredByWindows(b: Block, deltas: seq<Slot>, ts: seq<real>, c: nat, peak: real)
    requires OnLadder(b, ts) && |ts| == |deltas| && Bounds(b, deltas, ts, PEAK_WINDOW, peak)
    requires c >= 1 && b.FirstIncluded() + WINDOW <= b.end
    requires b.FirstIncluded() + WINDOW * (c - 1) < b.end <= b.FirstIncluded() + WINDOW * c
    ensures SumBytes(deltas, b.FirstIncluded(), b.end) <= Hold(c, peak)
  {
    var lo := b.FirstIncluded();
    var mid := lo + WINDOW * (c - 1);
    FullWindows(b, deltas, ts, c - 1, peak);
    LadderWindow(b, deltas, ts, b.end - 1, peak);
    SumSplit(deltas, lo, mid, b.end);
    SumSplit(deltas, b.end - WINDOW, mid, b.end);
    SumNonNegative(deltas, b.end - WINDOW, mid);
  }

  function WindowsFor(n: nat): nat {
    (n + WINDOW - 1) / WINDOW
  }

  lemma FewWindows(n: nat)
    requires n >= WINDOW
    ensures WindowsFor(n) >= 1 && WINDOW * (WindowsFor(n) - 1) < n <= WINDOW * WindowsFor(n)
    ensures 901 * WindowsFor(n) <= 2 * n
  {
  }

  lemma ScaleBound(c: nat, n: nat, peak: real, bytes: real)
    requires 901 * c <= 2 * n && peak >= 0.0 && bytes <= Hold(c, peak)
    ensures 901.0 * bytes <= 1800.0 * (peak * n as real)
  {
    HoldIsProduct(c, peak);
    RatioScales(c as real, n as real, peak);
  }

  lemma RatioScales(x: real, y: real, k: real)
    requires 901.0 * x <= 2.0 * y && k >= 0.0
    ensures 901.0 * (x * k) <= 2.0 * (k * y)
  {
    Scaled(901.0 * x, 2.0 * y, k);
  }

  lemma Scaled(x: real, y: real, k: real)
    requires x <= y && k >= 0.0
    ensures x * k <= y * k
  {
  }

  /** The block's average is at most 1800/901 of the peak, so less than twice. */
  ghost predicate AtMostTwice(b: Block, deltas: seq<Slot>, ts: seq<real>, peak: real)
    requires b.start < b.end <= |ts| == |deltas|
  {
    && 901.0 * SumBytes(deltas, b.FirstIncluded(), b.end) <= 1800.0 * (peak * Span(b, ts))
    && SumBytes(deltas, b.FirstIncluded(), b.end) <= 2.0 * (peak * Span(b, ts))
  }

  lemma BlockAverage(b: Block, deltas: seq<Slot>, ts: seq<real>, n: nat, peak: real)
    requires OnLadder(b, ts) && |ts| == |deltas| && Bounds(b, deltas, ts, PEAK_WINDOW, peak) && peak >= 0.0
    requires n == b.end - b.FirstIncluded() >= WINDOW
    ensures 901.0 * SumBytes(deltas, b.FirstIncluded(), b.end) <= 1800.0 * (peak * n as real)
  {
    FewWindows(n);
    CoveredByWindows(b, deltas, ts, WindowsFor(n), peak);
    ScaleBound(WindowsFor(n), n, peak, SumBytes(deltas, b.FirstIncluded(), b.end));
  }

  /** On the ladder, a block of at least 900 s averages at most 1800/901 of the peak; `PeakCanBeBelowAverage` attains
      it. */
  lemma AverageAtMostTwicePeak(blocks: seq<Block>, b: Block, deltas: seq<Slot>, ts: seq<real>, peak: real)
    requires b in blocks && |ts| == |deltas| && IsPeak(blocks, deltas, ts, PEAK_WINDOW, peak)
    requires OnLadder(b, ts) && Span(b, ts) >= PEAK_WINDOW
    ensures AtMostTwice(b, deltas, ts, peak)
  {
    LadderSpan(b, ts);
    var n := b.end - b.FirstIncluded();
    assert n >= WINDOW;
    BlockAverage(b, deltas, ts, n, peak);
    Scaled(0.0, peak, n as real);
  }

  // A capture shorter than the window.

  ghost predicate StrictlyAscending(b: Block, ts: seq<real>) {
    b.start < b.end <= |ts| && forall i, j | b.LeftBound() <= i < j < b.end :: ts[i] < ts[j]
  }

  ghost predicate OnlyUsable(blocks: seq<Block>, k: nat) {
    forall x | 0 <= x < |blocks| :: blocks[x].HasUsableDelta() <==> x == k
  }

  /** Block `k` alone is usable; time advances in it. */
  ghost predicate IsLone(blocks: seq<Block>, k: nat, ts: seq<real>) {
    && InRange(blocks, |ts|) && k < |blocks| && OnlyUsable(blocks, k)
    && StrictlyAscending(blocks[k], ts) && (blocks[k].skipFirst || blocks[k].start > 0)
  }

  /** When one block alone is usable and is shorter than the target, the panel's peak is its average, and the window is
      the block. */
  lemma LoneShortBlockPeaksAtAverage(blocks: seq<Block>, k: nat, deltas: seq<Slot>, ts: seq<real>, r: RedoRate)
    requires |ts| == |deltas| && IsLone(blocks, k, ts) && Span(blocks[k], ts) < 900.0
    requires IsRedoRate(deltas, ts, blocks, r)
    ensures r.ok && r.peak == r.average && r.window == Span(blocks[k], ts)
    ensures r.caption == Available(r.window.Floor)
  {
    var span, bytes := Span(blocks[k], ts), SumBytes(deltas, blocks[k].FirstIncluded(), blocks[k].end);
    LoneSpan(blocks, k, ts);
    LoneTotals(blocks, k, deltas, ts, |blocks|);
    assert IsRateOf(deltas, ts, blocks, bytes, span, r);
    RateParts(deltas, ts, blocks, r, bytes, span);
    LonePeak(blocks, k, deltas, ts, r.peak, r.window, r.caption, bytes, span);
    SameQuotient(r.peak, r.average, bytes, span);
  }

  lemma RateParts(deltas: seq<Slot>, ts: seq<real>, blocks: seq<Block>, r: RedoRate, bytes: real, seconds: real)
    requires InRange(blocks, |ts|) && |ts| == |deltas| && IsRateOf(deltas, ts, blocks, bytes, seconds, r)
    ensures r.ok && IsQuotient(r.average, bytes, seconds)
    ensures IsPeakOf(blocks, deltas, ts, PEAK_WINDOW, r.peak, r.window, r.caption)
  {
  }

  predicate IsQuotient(q: real, a: real, b: real) {
    q * b == a
  }

  lemma SameQuotient(p: real, q: real, a: real, b: real)
    requires b > 0.0 && IsQuotient(p, a, b) && IsQuotient(q, a, b)
    ensures p == q
  {
    assert (p - q) * b == 0.0;
  }

  lemma LoneSpan(blocks: seq<Block>, k: nat, ts: seq<real>)
    requires IsLone(blocks, k, ts)
    ensures Span(blocks[k], ts) > 0.0 && Observed(blocks[k], ts)
  {
    assert blocks[k].HasUsableDelta() && blocks[k].LeftBound() < blocks[k].end - 1;
  }

  lemma {:induction false} LoneTotals(blocks: seq<Block>, k: nat, deltas: seq<Slot>, ts: seq<real>, n: nat)
    requires |ts| == |deltas| && IsLone(blocks, k, ts) && n <= |blocks|
    ensures SecondsOver(blocks, ts, n) == if k < n then Span(blocks[k], ts) else 0.0
    ensures BytesUpTo(blocks, deltas, ts, n)
            == if k < n then SumBytes(deltas, blocks[k].FirstIncluded(), blocks[k].end) else 0.0
  {
    if n > 0 {
      LoneTotals(blocks, k, deltas, ts, n - 1);
      LoneSpan(blocks, k, ts);
      assert blocks[n - 1].HasUsableDelta() <==> n - 1 == k;
    }
  }

  lemma LoneIsInOrder(blocks: seq<Block>, k: nat, ts: seq<real>)
    requires IsLone(blocks, k, ts)
    ensures AllInOrder(blocks, ts)
  {
    forall x | 0 <= x < |blocks|
      ensures InOrder(blocks[x], ts)
    {
      if x != k {
        assert !blocks[x].HasUsableDelta();
      }
    }
  }

  lemma ShortGiven(blocks: seq<Block>, deltas: seq<Slot>, ts: seq<real>, longest: real, peak: real, window: real,
                   caption: Label)
    requires InRange(blocks, |ts|) && |ts| == |deltas| && 0.0 < longest < PEAK_WINDOW
    requires PeakGiven(blocks, deltas, ts, PEAK_WINDOW, longest, peak, window, caption)
    ensures window == longest && caption == Available(longest.Floor)
    ensures AllInOrder(blocks, ts) ==> IsPeak(blocks, deltas, ts, longest, peak)
  {
  }

  lemma LoneWindow(blocks: seq<Block>, k: nat, deltas: seq<Slot>, ts: seq<real>, peak: real, window: real,
                   caption: Label)
    requires |ts| == |deltas| && IsLone(blocks, k, ts) && Span(blocks[k], ts) < PEAK_WINDOW
    requires IsPeakOf(blocks, deltas, ts, PEAK_WINDOW, peak, window, caption)
    ensures window == Span(blocks[k], ts) > 0.0 && caption == Available(window.Floor)
    ensures Bounds(blocks[k], deltas, ts, window, peak)
    ensures peak == 0.0 || Attains(blocks[k], deltas, ts, window, peak)
  {
    var longest: real :| PeakGiven(blocks, deltas, ts, PEAK_WINDOW, longest, peak, window, caption);
    LongestIsLone(blocks, k, ts, longest);
    ShortGiven(blocks, deltas, ts, longest, peak, window, caption);
    LoneIsInOrder(blocks, k, ts);
    OnlyBlockGivesPeak(blocks, k, deltas, ts, window, peak);
  }

  lemma LonePeak(blocks: seq<Block>, k: nat, deltas: seq<Slot>, ts: seq<real>, peak: real, window: real, caption: Label,
                 bytes: real, span: real)
    requires |ts| == |deltas| && IsLone(blocks, k, ts) && span == Span(blocks[k], ts) < PEAK_WINDOW
    requires bytes == SumBytes(deltas, blocks[k].FirstIncluded(), blocks[k].end)
    requires IsPeakOf(blocks, deltas, ts, PEAK_WINDOW, peak, window, caption)
    ensures window == span && caption == Available(window.Floor) && IsQuotient(peak, bytes, span)
  {
    LoneWindow(blocks, k, deltas, ts, peak, window, caption);
    PeakIsAverage(blocks[k], deltas, ts, peak, bytes, span);
  }

  lemma LongestIsLone(blocks: seq<Block>, k: nat, ts: seq<real>, longest: real)
    requires IsLone(blocks, k, ts) && IsLongest(blocks, ts, longest)
    ensures longest == Span(blocks[k], ts) > 0.0
  {
    LoneSpan(blocks, k, ts);
  }

  lemma OnlyBlockGivesPeak(blocks: seq<Block>, k: nat, deltas: seq<Slot>, ts: seq<real>, window: real, peak: real)
    requires |ts| == |deltas| && k < |blocks| && OnlyUsable(blocks, k)
    requires window > 0.0 && IsPeak(blocks, deltas, ts, window, peak)
    ensures Bounds(blocks[k], deltas, ts, window, peak)
    ensures peak == 0.0 || Attains(blocks[k], deltas, ts, window, peak)
  {
    if peak != 0.0 {
      var x :| 0 <= x < |blocks| && Attains(blocks[x], deltas, ts, window, peak);
      OnlyUsableAttains(blocks[x], deltas, ts, window, peak);
    }
  }

  lemma PeakIsAverage(b: Block, deltas: seq<Slot>, ts: seq<real>, peak: real, bytes: real, span: real)
    requires |ts| == |deltas| && StrictlyAscending(b, ts) && (b.skipFirst || b.start > 0) && b.HasUsableDelta()
    requires span == Span(b, ts) > 0.0 && Bounds(b, deltas, ts, span, peak)
    requires peak == 0.0 || Attains(b, deltas, ts, span, peak)
    requires bytes == SumBytes(deltas, b.FirstIncluded(), b.end)
    ensures IsQuotient(peak, bytes, span)
  {
    if peak == 0.0 {
      WholeRate(b, deltas, ts, peak);
    } else {
      AttainsOnlyWhole(b, deltas, ts, peak);
    }
  }

  /** The whole block's rate is one the peak bounds. */
  lemma WholeRate(b: Block, deltas: seq<Slot>, ts: seq<real>, peak: real)
    requires StrictlyAscending(b, ts) && (b.skipFirst || b.start > 0) && b.HasUsableDelta() && |ts| == |deltas|
    requires Span(b, ts) > 0.0 && Bounds(b, deltas, ts, Span(b, ts), peak)
    ensures 0.0 <= SumBytes(deltas, b.FirstIncluded(), b.end) <= peak * Span(b, ts)
  {
    WholeBlockIsWindow(b, ts);
    SumNonNegative(deltas, b.FirstIncluded(), b.end);
    var rate := Rate(deltas, ts, b.FirstIncluded(), b.end - 1);
    RatioAtMost(SumBytes(deltas, b.FirstIncluded(), b.end), Span(b, ts), peak);
  }

  lemma WholeBlockIsWindow(b: Block, ts: seq<real>)
    requires StrictlyAscending(b, ts) && (b.skipFirst || b.start > 0) && b.HasUsableDelta()
    ensures IsWindow(b, ts, Span(b, ts), b.FirstIncluded(), b.end - 1)
  {
    assert b.LeftBound() == b.FirstIncluded() - 1;
  }

  /** The only window of the block as long as its span is the block. */
  lemma AttainsOnlyWhole(b: Block, deltas: seq<Slot>, ts: seq<real>, peak: real)
    requires |ts| == |deltas| && StrictlyAscending(b, ts) && (b.skipFirst || b.start > 0) && Span(b, ts) > 0.0
    requires Attains(b, deltas, ts, Span(b, ts), peak)
    ensures peak * Span(b, ts) == SumBytes(deltas, b.FirstIncluded(), b.end)
  {
    var j, i :| IsWindow(b, ts, Span(b, ts), j, i) && Rate(deltas, ts, j, i) == peak;
    WholeBlock(b, ts, j, i);
  }

  lemma OnlyUsableAttains(b: Block, deltas: seq<Slot>, ts: seq<real>, window: real, peak: real)
    requires |ts| == |deltas| && window > 0.0 && Attains(b, deltas, ts, window, peak)
    ensures b.HasUsableDelta()
  {
    var j, i :| IsWindow(b, ts, window, j, i) && Rate(deltas, ts, j, i) == peak;
  }

  lemma WholeBlock(b: Block, ts: seq<real>, j: nat, i: nat)
    requires StrictlyAscending(b, ts) && IsWindow(b, ts, Span(b, ts), j, i) && (b.skipFirst || b.start > 0)
    ensures j == b.FirstIncluded() && i == b.end - 1
  {
    assert ts[i] - ts[j - 1] >= ts[b.end - 1] - ts[b.LeftBound()];
  }
}
