/** The two computations of a write rate, over runs of finite samples (render/redo_sizing.go) and over snapshots
    (findings/inputs.go), and exactly when they agree. */
module RateAgreement {
  import opened Prelude
  import opened Mysqladmin
  import opened FindingsInputs
  import opened RedoSizing

  // Both denominators, sample by sample.

  /** The time up to sample `n` that ends in a sample with a value. */
  function Seen(deltas: seq<Slot>, ts: seq<real>, n: nat): real
    requires n <= |ts| == |deltas|
  {
    if n <= 1 then 0.0
    else Seen(deltas, ts, n - 1) + if deltas[n - 1].Val? then ts[n - 1] - ts[n - 2] else 0.0
  }

  /** The time up to sample `n` that lies within a snapshot. */
  function Within(ts: seq<real>, bounds: seq<nat>, n: nat): real
    requires n <= |ts|
  {
    if n <= 1 then 0.0
    else Within(ts, bounds, n - 1) + if n - 1 in bounds then 0.0 else ts[n - 1] - ts[n - 2]
  }

  /** The time within a snapshot that ends in a sample without a value. */
  function Missed(deltas: seq<Slot>, ts: seq<real>, bounds: seq<nat>, n: nat): real
    requires n <= |ts| == |deltas|
  {
    if n <= 1 then 0.0
    else Missed(deltas, ts, bounds, n - 1) +
         if deltas[n - 1].NaN? && n - 1 !in bounds then ts[n - 1] - ts[n - 2] else 0.0
  }

  ghost predicate MarksSnapshots(deltas: seq<Slot>, bounds: seq<nat>) {
    && bounds != [] && bounds[0] == 0
    && (forall i | 0 < i < |bounds| :: bounds[i - 1] < bounds[i] < |deltas| && deltas[bounds[i]].NaN?)
  }

  ghost predicate StrictWithin(ts: seq<real>, bounds: seq<nat>) {
    forall i | 0 < i < |ts| && i !in bounds :: ts[i - 1] < ts[i]
  }

  lemma {:induction false} BoundsAscend(deltas: seq<Slot>, bounds: seq<nat>, i: nat, j: nat)
    requires MarksSnapshots(deltas, bounds) && i < j < |bounds|
    ensures bounds[i] < bounds[j]
  {
    if i < j - 1 {
      BoundsAscend(deltas, bounds, i, j - 1);
    }
  }

  lemma BoundaryIsNaN(deltas: seq<Slot>, bounds: seq<nat>, n: nat)
    requires MarksSnapshots(deltas, bounds) && 0 < n && n in bounds
    ensures n < |deltas| && deltas[n].NaN?
  {
    var i :| 0 <= i < |bounds| && bounds[i] == n;
  }

  lemma {:induction false} SeenIsWithinLessMissed(deltas: seq<Slot>, ts: seq<real>, bounds: seq<nat>, n: nat)
    requires n <= |ts| == |deltas| && MarksSnapshots(deltas, bounds)
    ensures Seen(deltas, ts, n) == Within(ts, bounds, n) - Missed(deltas, ts, bounds, n)
  {
    if n > 1 {
      SeenIsWithinLessMissed(deltas, ts, bounds, n - 1);
      if n - 1 in bounds {
        BoundaryIsNaN(deltas, bounds, n - 1);
      }
    }
  }

  /** A sample is missing before `n`: it has no value although its snapshot has begun. */
  ghost predicate SomeMissing(deltas: seq<Slot>, bounds: seq<nat>, n: nat)
    requires n <= |deltas|
  {
    exists i | 0 < i < n :: deltas[i].NaN? && i !in bounds
  }

  lemma {:induction false} MissedExactly(deltas: seq<Slot>, ts: seq<real>, bounds: seq<nat>, n: nat)
    requires n <= |ts| == |deltas| && StrictWithin(ts, bounds)
    ensures Missed(deltas, ts, bounds, n) >= 0.0
    ensures Missed(deltas, ts, bounds, n) > 0.0 <==> SomeMissing(deltas, bounds, n)
  {
    if n > 1 {
      MissedExactly(deltas, ts, bounds, n - 1);
      if SomeMissing(deltas, bounds, n - 1) {
        var i :| 0 < i < n - 1 && deltas[i].NaN? && i !in bounds;
        assert SomeMissing(deltas, bounds, n);
      }
    }
  }

  // The snapshots' denominator.

  lemma {:induction false} WithinTelescopes(ts: seq<real>, bounds: seq<nat>, lo: nat, hi: nat)
    requires 1 <= lo <= hi <= |ts| && forall i | lo <= i < hi :: i !in bounds
    ensures Within(ts, bounds, hi) == Within(ts, bounds, lo) + ts[hi - 1] - ts[lo - 1]
  {
    if lo < hi {
      WithinTelescopes(ts, bounds, lo, hi - 1);
    }
  }

  lemma {:induction false} AscendsWithin(ts: seq<real>, bounds: seq<nat>, lo: nat, hi: nat)
    requires 1 <= lo <= hi <= |ts| && StrictWithin(ts, bounds) && forall i | lo <= i < hi :: i !in bounds
    ensures if lo < hi then ts[lo - 1] < ts[hi - 1] else ts[lo - 1] == ts[hi - 1]
  {
    if lo < hi {
      AscendsWithin(ts, bounds, lo, hi - 1);
    }
  }

  lemma NoBoundaryInside(deltas: seq<Slot>, bounds: seq<nat>, k: nat, i: nat)
    requires MarksSnapshots(deltas, bounds) && k < |bounds| && bounds[k] < i
    requires k + 1 < |bounds| ==> i < bounds[k + 1]
    ensures i !in bounds
  {
    if i in bounds {
      var j :| 0 <= j < |bounds| && bounds[j] == i;
      if j < k {
        BoundsAscend(deltas, bounds, j, k);
      } else if j > k + 1 {
        BoundsAscend(deltas, bounds, k + 1, j);
      }
    }
  }

  /** One snapshot adds its time within. */
  lemma SnapshotSeconds(deltas: seq<Slot>, ts: seq<real>, bounds: seq<nat>, k: nat)
    requires |ts| == |deltas| > 0 && MarksSnapshots(deltas, bounds) && StrictWithin(ts, bounds) && k < |bounds|
    ensures 0 <= bounds[k] <= BlockEnd(bounds, |ts|, k) < |ts|
    ensures Within(ts, bounds, BlockEnd(bounds, |ts|, k) + 1)
            == Within(ts, bounds, bounds[k]) + BlockSeconds(ts, bounds, k)
  {
    var lo, hi := bounds[k] + 1, BlockEnd(bounds, |ts|, k) + 1;
    forall i: nat | lo <= i < hi
      ensures i !in bounds
    {
      NoBoundaryInside(deltas, bounds, k, i);
    }
    WithinTelescopes(ts, bounds, lo, hi);
    AscendsWithin(ts, bounds, lo, hi);
  }

  lemma {:induction false} SecondsAreWithin(deltas: seq<Slot>, ts: seq<real>, bounds: seq<nat>, k: nat)
    requires |ts| == |deltas| > 0 && MarksSnapshots(deltas, bounds) && StrictWithin(ts, bounds) && k < |bounds|
    ensures 0 <= BlockEnd(bounds, |ts|, k) < |ts|
    ensures SecondsUpTo(ts, bounds, k + 1) == Within(ts, bounds, BlockEnd(bounds, |ts|, k) + 1)
  {
    if k > 0 {
      SecondsAreWithin(deltas, ts, bounds, k - 1);
    }
    SnapshotSeconds(deltas, ts, bounds, k);
  }

  // The runs' denominator.

  lemma {:induction false} SeenTelescopes(deltas: seq<Slot>, ts: seq<real>, lo: nat, hi: nat)
    requires 1 <= lo <= hi <= |ts| == |deltas| && forall i | lo <= i < hi :: deltas[i].Val?
    ensures Seen(deltas, ts, hi) == Seen(deltas, ts, lo) + ts[hi - 1] - ts[lo - 1]
  {
    if lo < hi {
      SeenTelescopes(deltas, ts, lo, hi - 1);
    }
  }

  lemma {:induction false} NothingSeen(deltas: seq<Slot>, ts: seq<real>, lo: nat, hi: nat)
    requires lo <= hi <= |ts| == |deltas| && forall i | lo <= i < hi :: deltas[i].NaN?
    ensures Seen(deltas, ts, hi) == Seen(deltas, ts, lo)
    ensures SumBytes(deltas, lo, hi) == 0.0
  {
    if lo < hi {
      NothingSeen(deltas, ts, lo, hi - 1);
    }
  }

  /** A run is observed exactly when it has a delta, and then spans what was seen in it. */
  lemma RunIsSeen(deltas: seq<Slot>, ts: seq<real>, bounds: seq<nat>, b: Block)
    requires |ts| == |deltas| && MarksSnapshots(deltas, bounds) && StrictWithin(ts, bounds) && IsBlock(deltas, b)
    ensures Observed(b, ts) <==> b.HasUsableDelta()
    ensures Seen(deltas, ts, b.end) == Seen(deltas, ts, b.start) + if Observed(b, ts) then Span(b, ts) else 0.0
  {
    var lo := if b.start == 0 then 1 else b.start;
    forall i: nat | lo <= i < b.end
      ensures i !in bounds
    {
      if i in bounds {
        BoundaryIsNaN(deltas, bounds, i);
      }
    }
    SeenTelescopes(deltas, ts, lo, b.end);
    AscendsWithin(ts, bounds, lo, b.end);
  }

  function End(blocks: seq<Block>, k: nat): nat
    requires k <= |blocks|
  {
    if k == 0 then 0 else blocks[k - 1].end
  }

  /** Between two runs there are no values. */
  lemma {:induction false} OrderedBlocks(deltas: seq<Slot>, blocks: seq<Block>, i: nat, j: nat)
    requires IsBlocks(deltas, blocks) && i < j < |blocks|
    ensures blocks[i].end < blocks[j].start
  {
    if i < j - 1 {
      OrderedBlocks(deltas, blocks, i, j - 1);
      assert blocks[j - 1] in blocks;
    }
  }

  /** A run is over by the `k`-th run's end, or begins with the next. */
  lemma BeforeOrAfter(deltas: seq<Slot>, blocks: seq<Block>, k: nat, i: nat)
    requires IsBlocks(deltas, blocks) && k <= |blocks| && i < |blocks|
    ensures if i < k then blocks[i].end <= End(blocks, k) else blocks[k].start <= blocks[i].start
  {
    if i + 1 < k {
      OrderedBlocks(deltas, blocks, i, k - 1);
      assert blocks[k - 1] in blocks;
    } else if k < i {
      OrderedBlocks(deltas, blocks, k, i);
      assert blocks[k] in blocks;
    }
  }

  lemma OnlyNaNBetween(deltas: seq<Slot>, blocks: seq<Block>, k: nat, x: nat)
    requires IsBlocks(deltas, blocks) && k <= |blocks| && End(blocks, k) <= x < |deltas|
    requires k < |blocks| ==> x < blocks[k].start
    ensures deltas[x].NaN?
  {
    forall i | 0 <= i < |blocks|
      ensures !(blocks[i].start <= x < blocks[i].end)
    {
      BeforeOrAfter(deltas, blocks, k, i);
    }
  }

  lemma NothingBetween(deltas: seq<Slot>, ts: seq<real>, blocks: seq<Block>, k: nat)
    requires |ts| == |deltas| && IsBlocks(deltas, blocks) && k <= |blocks|
    ensures var next := if k < |blocks| then blocks[k].start else |deltas|;
            && End(blocks, k) <= next <= |deltas|
            && Seen(deltas, ts, next) == Seen(deltas, ts, End(blocks, k))
            && SumBytes(deltas, End(blocks, k), next) == 0.0
  {
    var next := if k < |blocks| then blocks[k].start else |deltas|;
    assert k > 0 ==> blocks[k - 1] in blocks;
    assert k < |blocks| ==> blocks[k] in blocks;
    forall x: nat | End(blocks, k) <= x < next
      ensures deltas[x].NaN?
    {
      OnlyNaNBetween(deltas, blocks, k, x);
    }
    NothingSeen(deltas, ts, End(blocks, k), next);
  }

  lemma {:induction false} SecondsAreSeen(deltas: seq<Slot>, ts: seq<real>, bounds: seq<nat>, blocks: seq<Block>,
                                          k: nat)
    requires |ts| == |deltas| && MarksSnapshots(deltas, bounds) && StrictWithin(ts, bounds)
    requires IsBlocks(deltas, blocks) && InRange(blocks, |ts|) && k <= |blocks|
    ensures SecondsOver(blocks, ts, k) == Seen(deltas, ts, End(blocks, k))
  {
    if k > 0 {
      SecondsAreSeen(deltas, ts, bounds, blocks, k - 1);
      NothingBetween(deltas, ts, blocks, k - 1);
      assert blocks[k - 1] in blocks;
      RunIsSeen(deltas, ts, bounds, blocks[k - 1]);
    }
  }

  // The numerators.

  /** What the counter fell by, over the samples from 1 up to `n` at which it was reset. */
  function Fallen(deltas: seq<Slot>, n: nat): real
    requires n <= |deltas|
  {
    if n <= 1 then 0.0
    else Fallen(deltas, n - 1) + if deltas[n - 1].Val? && deltas[n - 1].v < 0.0 then -deltas[n - 1].v else 0.0
  }

  /** The counter was reset before sample `n`: a delta after the initial tally is negative. */
  ghost predicate WasReset(deltas: seq<Slot>, n: nat)
    requires n <= |deltas|
  {
    exists i | 0 < i < n :: deltas[i].Val? && deltas[i].v < 0.0
  }

  lemma {:induction false} FallenExactly(deltas: seq<Slot>, n: nat)
    requires n <= |deltas|
    ensures Fallen(deltas, n) >= 0.0
    ensures Fallen(deltas, n) > 0.0 <==> WasReset(deltas, n)
  {
    if n > 1 {
      FallenExactly(deltas, n - 1);
      if WasReset(deltas, n - 1) {
        var i :| 0 < i < n - 1 && deltas[i].Val? && deltas[i].v < 0.0;
        assert WasReset(deltas, n);
      }
    }
  }

  lemma {:induction false} BytesAreSum(deltas: seq<Slot>, n: nat)
    requires 1 <= n <= |deltas|
    ensures SumBytes(deltas, 1, n) == SumVals(deltas[1..n]) + Fallen(deltas, n)
  {
    if n > 1 {
      BytesAreSum(deltas, n - 1);
      assert deltas[1..n][..n - 2] == deltas[1..n - 1];
    }
  }

  /** The bytes of the first `k` runs, without the initial tally. */
  lemma {:induction false} RunsAddUp(deltas: seq<Slot>, ts: seq<real>, bounds: seq<nat>, blocks: seq<Block>, k: nat)
    requires |ts| == |deltas| && MarksSnapshots(deltas, bounds) && StrictWithin(ts, bounds)
    requires IsBlocks(deltas, blocks) && InRange(blocks, |ts|) && k <= |blocks|
    ensures BytesUpTo(blocks, deltas, ts, k) == SumBytes(deltas, 1, End(blocks, k))
  {
    if k > 0 {
      RunsAddUp(deltas, ts, bounds, blocks, k - 1);
      NothingBetween(deltas, ts, blocks, k - 1);
      assert blocks[k - 1] in blocks;
      RunIsSeen(deltas, ts, bounds, blocks[k - 1]);
      OneRun(deltas, ts, blocks[k - 1], End(blocks, k - 1));
    }
  }

  lemma OneRun(deltas: seq<Slot>, ts: seq<real>, b: Block, before: nat)
    requires |ts| == |deltas| && IsBlock(deltas, b) && before <= b.start && (before == 0 || b.start > 0)
    requires SumBytes(deltas, before, b.start) == 0.0 && (Observed(b, ts) <==> b.HasUsableDelta())
    ensures SumBytes(deltas, 1, b.end)
            == SumBytes(deltas, 1, before) + if Observed(b, ts) then SumBytes(deltas, b.FirstIncluded(), b.end) else 0.0
  {
    if b.start > 0 {
      SumSplit(deltas, if before == 0 then 0 else 1, before, b.start);
      SumSplit(deltas, 1, b.start, b.end);
      if before == 0 {
        SumSplit(deltas, 0, 1, b.start);
        SumNonNegative(deltas, 0, 1);
        SumNonNegative(deltas, 1, b.start);
      }
    }
  }

  // The agreement.

  function Starts(m: Data): seq<nat> {
    if m.boundaries == [] then [0] else m.boundaries
  }

  /** Data fit for comparing the two: deltas do not span snapshots, and time advances within them. */
  ghost predicate Comparable(m: Data, deltas: seq<Slot>) {
    && RedoSeries(Some(m)) == Some(deltas)
    && MarksSnapshots(deltas, Starts(m)) && StrictWithin(m.timestamps, Starts(m))
  }

  lemma SecondsAgree(deltas: seq<Slot>, ts: seq<real>, bounds: seq<nat>, blocks: seq<Block>)
    requires |ts| == |deltas| > 0 && MarksSnapshots(deltas, bounds) && StrictWithin(ts, bounds)
    requires IsBlocks(deltas, blocks) && InRange(blocks, |ts|)
    ensures SecondsUpTo(ts, bounds, |bounds|)
            == SecondsOver(blocks, ts, |blocks|) + Missed(deltas, ts, bounds, |deltas|)
  {
    SecondsAreWithin(deltas, ts, bounds, |bounds| - 1);
    SecondsAreSeen(deltas, ts, bounds, blocks, |blocks|);
    NothingBetween(deltas, ts, blocks, |blocks|);
    SeenIsWithinLessMissed(deltas, ts, bounds, |deltas|);
  }

  /** The redo panel's seconds fall short of the snapshots' by the time of the missing samples; its bytes exceed the
      counter's total by what the counter fell by when it was reset. */
  lemma SecondsAndBytes(m: Data, deltas: seq<Slot>, blocks: seq<Block>)
    requires Comparable(m, deltas) && IsBlocks(deltas, blocks) && InRange(blocks, |m.timestamps|)
    ensures Seconds(Some(m)) == SecondsOver(blocks, m.timestamps, |blocks|)
                                + Missed(deltas, m.timestamps, Starts(m), |deltas|)
    ensures Total(Some(m), REDO_COUNTER).Some?
    ensures BytesUpTo(blocks, deltas, m.timestamps, |blocks|)
            == Total(Some(m), REDO_COUNTER).value + Fallen(deltas, |deltas|)
  {
    SecondsAgree(deltas, m.timestamps, Starts(m), blocks);
    BytesAgree(deltas, m.timestamps, Starts(m), blocks);
  }

  lemma TailIsSum(deltas: seq<Slot>)
    requires deltas != []
    ensures SumBytes(deltas, 1, |deltas|) == SumVals(deltas[1..]) + Fallen(deltas, |deltas|)
  {
    BytesAreSum(deltas, |deltas|);
    assert deltas[1..|deltas|] == deltas[1..];
  }

  /** After the last run come no bytes. */
  lemma BytesToLastRun(deltas: seq<Slot>, ts: seq<real>, blocks: seq<Block>)
    requires |ts| == |deltas| > 0 && IsBlocks(deltas, blocks) && InRange(blocks, |ts|)
    ensures SumBytes(deltas, 1, |deltas|) == SumBytes(deltas, 1, End(blocks, |blocks|))
  {
    NothingBetween(deltas, ts, blocks, |blocks|);
    var last := End(blocks, |blocks|);
    if last > 0 {
      SumSplit(deltas, 1, last, |deltas|);
    } else {
      SumSplit(deltas, 0, 1, |deltas|);
      SumNonNegative(deltas, 0, 1);
      SumNonNegative(deltas, 1, |deltas|);
    }
  }

  lemma BytesAgree(deltas: seq<Slot>, ts: seq<real>, bounds: seq<nat>, blocks: seq<Block>)
    requires |ts| == |deltas| > 0 && MarksSnapshots(deltas, bounds) && StrictWithin(ts, bounds)
    requires IsBlocks(deltas, blocks) && InRange(blocks, |ts|)
    ensures BytesUpTo(blocks, deltas, ts, |blocks|) == SumVals(deltas[1..]) + Fallen(deltas, |deltas|)
  {
    RunsAddUp(deltas, ts, bounds, blocks, |blocks|);
    BytesToLastRun(deltas, ts, blocks);
    TailIsSum(deltas);
  }

  /** `rate` is the quotient, and present when there is time to divide by. */
  ghost predicate IsRate(bytes: real, seconds: real, rate: real, ok: bool) {
    (ok <==> seconds > 0.0) && (ok ==> rate * seconds == bytes)
  }

  /** The panel's average, as `ReadObservedRedoRate` returns it. */
  lemma PanelAverage(deltas: seq<Slot>, ts: seq<real>, blocks: seq<Block>, r: RedoRate)
    requires InRange(blocks, |ts|) && |ts| == |deltas| && IsRedoRate(deltas, ts, blocks, r)
    ensures IsRate(BytesUpTo(blocks, deltas, ts, |blocks|), SecondsOver(blocks, ts, |blocks|), r.average, r.ok)
  {
  }

  /** The panel's average is never below the generic rate; they are equal exactly when the counter was not reset and,
      besides, no sample is missing inside a snapshot or nothing was written; and without missing samples both are
      present or both absent. */
  predicate Agree(average: real, panelOk: bool, rate: real, ok: bool, missing: bool, reset: bool, bytes: real) {
    && (panelOk ==> ok && average >= rate && (average == rate <==> !reset && (!missing || bytes == 0.0)))
    && (!missing ==> (panelOk <==> ok))
  }

  /** The two rates agree, exactly as far as `Agree` says. */
  lemma RatesAgreeExactly(m: Data, deltas: seq<Slot>, blocks: seq<Block>, r: RedoRate, rate: real, ok: bool)
    requires Comparable(m, deltas) && IsBlocks(deltas, blocks) && InRange(blocks, |m.timestamps|)
    requires IsRedoRate(deltas, m.timestamps, blocks, r)
    requires Total(Some(m), REDO_COUNTER).Some?
    requires IsRate(Total(Some(m), REDO_COUNTER).value, Seconds(Some(m)), rate, ok)
    ensures Agree(r.average, r.ok, rate, ok, SomeMissing(deltas, Starts(m), |deltas|), WasReset(deltas, |deltas|),
                  Total(Some(m), REDO_COUNTER).value)
  {
    var total, fallen, seconds, missed := PanelSeconds(m, deltas, blocks, r);
    Quotients(total, fallen, seconds, missed, Seconds(Some(m)), r.average, r.ok, rate, ok);
  }

  /** The panel divides more bytes, by what the counter fell, by fewer seconds, less the time of missing samples. */
  lemma PanelSeconds(m: Data, deltas: seq<Slot>, blocks: seq<Block>, r: RedoRate)
    returns (total: real, fallen: real, seconds: real, missed: real)
    requires Comparable(m, deltas) && IsBlocks(deltas, blocks) && InRange(blocks, |m.timestamps|)
    requires IsRedoRate(deltas, m.timestamps, blocks, r) && Total(Some(m), REDO_COUNTER).Some?
    ensures total == Total(Some(m), REDO_COUNTER).value && IsRate(total + fallen, seconds, r.average, r.ok)
    ensures fallen >= 0.0 && total + fallen >= 0.0 && (fallen > 0.0 <==> WasReset(deltas, |deltas|))
    ensures missed >= 0.0 && Seconds(Some(m)) == seconds + missed
    ensures missed > 0.0 <==> SomeMissing(deltas, Starts(m), |deltas|)
  {
    total, fallen := Total(Some(m), REDO_COUNTER).value, Fallen(deltas, |deltas|);
    seconds, missed := SecondsOver(blocks, m.timestamps, |blocks|), Missed(deltas, m.timestamps, Starts(m), |deltas|);
    FallenExactly(deltas, |deltas|);
    BytesNonNegative(m, deltas);
    SecondsAndBytes(m, deltas, blocks);
    MissedExactly(deltas, m.timestamps, Starts(m), |deltas|);
    PanelAverage(deltas, m.timestamps, blocks, r);
  }

  lemma BytesNonNegative(m: Data, deltas: seq<Slot>)
    requires Comparable(m, deltas)
    ensures Total(Some(m), REDO_COUNTER).Some?
    ensures Total(Some(m), REDO_COUNTER).value + Fallen(deltas, |deltas|) >= 0.0
  {
    SumNonNegative(deltas, 1, |deltas|);
    TailIsSum(deltas);
  }

  lemma Quotients(total: real, fallen: real, seconds: real, missed: real, long: real, a: real, aOk: bool, b: real,
                  bOk: bool)
    requires fallen >= 0.0 && total + fallen >= 0.0 && missed >= 0.0 && long == seconds + missed
    requires IsRate(total + fallen, seconds, a, aOk) && IsRate(total, long, b, bOk)
    ensures Agree(a, aOk, b, bOk, missed > 0.0, fallen > 0.0, total)
  {
    if aOk {
      assert bOk;
      SameSign(b, long);
      SameSign(a - b, seconds);
      SameSign(b, seconds);
      if missed > 0.0 {
        SameSign(b, missed);
      }
      Difference(a, b, seconds, missed, total, fallen);
      Compared(a, b, (a - b) * seconds, b * missed, b * seconds, total, fallen, missed);
    }
  }

  /** The same with the products named. */
  lemma Compared(a: real, b: real, gap: real, lost: real, kept: real, total: real, fallen: real, missed: real)
    requires fallen >= 0.0 && total + fallen >= 0.0 && missed >= 0.0
    requires gap == lost + fallen == total + fallen - kept
    requires (a < b <==> gap < 0.0) && (a > b <==> gap > 0.0)
    requires (b < 0.0 <==> total < 0.0) && (b > 0.0 <==> total > 0.0) && (b < 0.0 <==> kept < 0.0)
    requires if missed > 0.0 then (lost < 0.0 <==> b < 0.0) && (lost > 0.0 <==> b > 0.0) else lost == 0.0
    ensures a >= b && (a == b <==> !(fallen > 0.0) && (!(missed > 0.0) || total == 0.0))
  {
  }

  lemma Difference(a: real, b: real, seconds: real, missed: real, total: real, fallen: real)
    requires a * seconds == total + fallen && b * (seconds + missed) == total
    ensures (a - b) * seconds == b * missed + fallen == total + fallen - b * seconds
    ensures missed == 0.0 ==> b * missed == 0.0
    ensures b == 0.0 ==> b * missed == 0.0
  {
    assert b * (seconds + missed) == b * seconds + b * missed;
  }

  lemma SameSign(x: real, t: real)
    requires t > 0.0
    ensures (x < 0.0 <==> x * t < 0.0) && (x > 0.0 <==> x * t > 0.0)
  {
  }
}
