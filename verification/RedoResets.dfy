/** A reset of the counter is no write: the redo panel reads a negative delta as zero. */
module RedoResets {
  import opened Prelude
  import opened Mysqladmin
  import opened FindingsInputs
  import opened RedoSizing

  /** The series with the negative delta of sample `x` put to zero. */
  function Zeroed(deltas: seq<Slot>, x: nat): seq<Slot>
    requires x < |deltas|
  {
    deltas[x := Val(0.0)]
  }

  predicate IsReset(deltas: seq<Slot>, x: nat) {
    x < |deltas| && deltas[x].Val? && deltas[x].v < 0.0
  }

  lemma SameBlocks(deltas: seq<Slot>, x: nat, blocks: seq<Block>)
    requires IsReset(deltas, x)
    ensures IsBlocks(Zeroed(deltas, x), blocks) <==> IsBlocks(deltas, blocks)
  {
    var zeroed := Zeroed(deltas, x);
    forall b: Block
      ensures IsBlock(zeroed, b) <==> IsBlock(deltas, b)
    {
      assert forall i | 0 <= i < |deltas| :: zeroed[i].Val? <==> deltas[i].Val?;
    }
    assert forall i | 0 <= i < |deltas| :: zeroed[i].Val? <==> deltas[i].Val?;
  }

  lemma {:induction false} SameSum(deltas: seq<Slot>, x: nat, lo: nat, hi: nat)
    requires IsReset(deltas, x) && hi <= |deltas|
    ensures SumBytes(Zeroed(deltas, x), lo, hi) == SumBytes(deltas, lo, hi)
  {
    if lo < hi {
      SameSum(deltas, x, lo, hi - 1);
    }
  }

  lemma {:induction false} SameBytes(deltas: seq<Slot>, x: nat, ts: seq<real>, blocks: seq<Block>, k: nat)
    requires IsReset(deltas, x) && InRange(blocks, |ts|) && |ts| == |deltas| && k <= |blocks|
    ensures BytesUpTo(blocks, Zeroed(deltas, x), ts, k) == BytesUpTo(blocks, deltas, ts, k)
  {
    if k > 0 {
      SameBytes(deltas, x, ts, blocks, k - 1);
      SameSum(deltas, x, blocks[k - 1].FirstIncluded(), blocks[k - 1].end);
    }
  }

  lemma SameWrites(deltas: seq<Slot>, x: nat, b: Block)
    requires IsReset(deltas, x) && b.end <= |deltas|
    ensures Writes(b, Zeroed(deltas, x)) <==> Writes(b, deltas)
  {
    assert forall i | 0 <= i < |deltas| :: Bytes(Zeroed(deltas, x)[i]) == Bytes(deltas[i]);
  }

  lemma SameRates(deltas: seq<Slot>, x: nat, b: Block, ts: seq<real>, window: real, peak: real)
    requires IsReset(deltas, x) && |ts| == |deltas| && window > 0.0
    ensures Bounds(b, Zeroed(deltas, x), ts, window, peak) <==> Bounds(b, deltas, ts, window, peak)
    ensures Attains(b, Zeroed(deltas, x), ts, window, peak) <==> Attains(b, deltas, ts, window, peak)
  {
    forall j: nat, i: nat | IsWindow(b, ts, window, j, i)
      ensures Rate(Zeroed(deltas, x), ts, j, i) == Rate(deltas, ts, j, i)
    {
      SameSum(deltas, x, j, i + 1);
    }
  }

  lemma SamePeak(deltas: seq<Slot>, x: nat, blocks: seq<Block>, ts: seq<real>, window: real, peak: real)
    requires IsReset(deltas, x) && |ts| == |deltas| && window > 0.0
    ensures IsPeak(blocks, Zeroed(deltas, x), ts, window, peak) <==> IsPeak(blocks, deltas, ts, window, peak)
  {
    forall k | 0 <= k < |blocks|
      ensures Bounds(blocks[k], Zeroed(deltas, x), ts, window, peak) <==> Bounds(blocks[k], deltas, ts, window, peak)
      ensures Attains(blocks[k], Zeroed(deltas, x), ts, window, peak) <==> Attains(blocks[k], deltas, ts, window, peak)
    {
      SameRates(deltas, x, blocks[k], ts, window, peak);
    }
  }

  lemma SamePeakGiven(deltas: seq<Slot>, x: nat, blocks: seq<Block>, ts: seq<real>, longest: real, r: RedoRate)
    requires IsReset(deltas, x) && InRange(blocks, |ts|) && |ts| == |deltas|
    ensures PeakGiven(blocks, Zeroed(deltas, x), ts, PEAK_WINDOW, longest, r.peak, r.window, r.caption)
            <==> PeakGiven(blocks, deltas, ts, PEAK_WINDOW, longest, r.peak, r.window, r.caption)
  {
    if longest > 0.0 {
      SamePeak(deltas, x, blocks, ts, if longest < PEAK_WINDOW then longest else PEAK_WINDOW, r.peak);
    }
  }

  lemma SameRateOf(deltas: seq<Slot>, x: nat, blocks: seq<Block>, ts: seq<real>, bytes: real, seconds: real,
                   r: RedoRate)
    requires IsReset(deltas, x) && InRange(blocks, |ts|) && |ts| == |deltas|
    ensures IsRateOf(Zeroed(deltas, x), ts, blocks, bytes, seconds, r)
            <==> IsRateOf(deltas, ts, blocks, bytes, seconds, r)
  {
    forall longest: real
      ensures PeakGiven(blocks, Zeroed(deltas, x), ts, PEAK_WINDOW, longest, r.peak, r.window, r.caption)
              <==> PeakGiven(blocks, deltas, ts, PEAK_WINDOW, longest, r.peak, r.window, r.caption)
    {
      SamePeakGiven(deltas, x, blocks, ts, longest, r);
    }
    forall k | 0 <= k < |blocks|
      ensures Writes(blocks[k], Zeroed(deltas, x)) <==> Writes(blocks[k], deltas)
    {
      SameWrites(deltas, x, blocks[k]);
    }
  }

  /** With the negative delta of a reset put to zero, the panel shows the same average, the same peak and the rest. */
  lemma ResetIsNoWrite(deltas: seq<Slot>, x: nat, blocks: seq<Block>, ts: seq<real>, r: RedoRate)
    requires IsReset(deltas, x) && |ts| == |deltas| && InRange(blocks, |ts|)
    ensures IsBlocks(deltas[x := Val(0.0)], blocks) <==> IsBlocks(deltas, blocks)
    ensures IsRedoRate(deltas[x := Val(0.0)], ts, blocks, r) <==> IsRedoRate(deltas, ts, blocks, r)
  {
    SameBlocks(deltas, x, blocks);
    SameBytes(deltas, x, ts, blocks, |blocks|);
    SameRateOf(deltas, x, blocks, ts, BytesUpTo(blocks, deltas, ts, |blocks|), SecondsOver(blocks, ts, |blocks|), r);
  }

  // What the panel says of writing.

  lemma {:induction false} SomeBytes(deltas: seq<Slot>, lo: nat, hi: nat)
    requires hi <= |deltas|
    ensures SumBytes(deltas, lo, hi) > 0.0 <==> exists i | lo <= i < hi :: deltas[i].Val? && deltas[i].v > 0.0
  {
    if lo < hi {
      SomeBytes(deltas, lo, hi - 1);
      SumNonNegative(deltas, lo, hi - 1);
      if i :| lo <= i < hi - 1 && deltas[i].Val? && deltas[i].v > 0.0 {
        assert exists j | lo <= j < hi :: deltas[j].Val? && deltas[j].v > 0.0;
      }
    }
  }

  lemma {:induction false} BytesAreWrites(deltas: seq<Slot>, ts: seq<real>, blocks: seq<Block>, k: nat)
    requires InRange(blocks, |ts|) && |ts| == |deltas| && k <= |blocks|
    ensures BytesUpTo(blocks, deltas, ts, k) >= 0.0
    ensures BytesUpTo(blocks, deltas, ts, k) > 0.0 <==> AnyWrites(blocks, deltas, ts, k)
  {
    if k > 0 {
      BytesAreWrites(deltas, ts, blocks, k - 1);
      var b := blocks[k - 1];
      SomeBytes(deltas, b.FirstIncluded(), b.end);
      SumNonNegative(deltas, b.FirstIncluded(), b.end);
      assert AnyWrites(blocks, deltas, ts, k)
        <==> AnyWrites(blocks, deltas, ts, k - 1) || (Observed(b, ts) && Writes(b, deltas));
    }
  }

  /** The panel says that something was written if and only if its average is positive, and it never is negative. */
  lemma WritesIffPositive(deltas: seq<Slot>, ts: seq<real>, blocks: seq<Block>, r: RedoRate)
    requires InRange(blocks, |ts|) && |ts| == |deltas| && IsRedoRate(deltas, ts, blocks, r)
    ensures r.average >= 0.0 && (r.anyWrites <==> r.average > 0.0)
  {
    if r.ok {
      BytesAreWrites(deltas, ts, blocks, |blocks|);
      SignOfQuotient(r.average, SecondsOver(blocks, ts, |blocks|));
    }
  }

  lemma SignOfQuotient(q: real, seconds: real)
    requires seconds > 0.0
    ensures (q > 0.0 <==> q * seconds > 0.0) && (q < 0.0 <==> q * seconds < 0.0)
  {
  }
}
