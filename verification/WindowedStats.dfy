/** Statistics of each series over the visible window.  Source: render/assets/app-js/05.js.

    A sample value that is null, undefined or not finite is `None`; a series may be shorter than the time axis. */
module WindowedStats {
  import opened Prelude

  datatype Window = Window(min: Option<real>, max: Option<real>)
  datatype Stats = NoStats | Stats(min: real, max: real, avg: real, count: nat)

  ghost predicate Ascending(ts: seq<real>) {
    forall i, j | 0 <= i <= j < |ts| :: ts[i] <= ts[j]
  }

  /** The closed window: an open end is that of the axis, and swapped ends are put in order. */
  function Limits(ts: seq<real>, win: Option<Window>): (r: (real, real))
    requires ts != []
    ensures r.0 <= r.1
  {
    var lo := if win.Some? && win.value.min.Some? then win.value.min.value else ts[0];
    var hi := if win.Some? && win.value.max.Some? then win.value.max.value else ts[|ts| - 1];
    if lo > hi then (hi, lo) else (lo, hi)
  }

  /** The value of sample `i`, as a sequence of one or none. */
  function At(values: seq<Option<real>>, i: nat): seq<real> {
    if i < |values| && values[i].Some? then [values[i].value] else []
  }

  /** The plain filter: all values present whose time is within the window, among the first `n` samples. */
  function Filter(ts: seq<real>, values: seq<Option<real>>, lo: real, hi: real, n: nat): seq<real>
    requires n <= |ts|
  {
    if n == 0 then []
    else Filter(ts, values, lo, hi, n - 1) + if lo <= ts[n - 1] <= hi then At(values, n - 1) else []
  }

  function Inside(ts: seq<real>, values: seq<Option<real>>, lo: real, hi: real): seq<real> {
    Filter(ts, values, lo, hi, |ts|)
  }

  /** What is inside: the values present whose time is not before `lo` and not after `hi`. */
  lemma {:induction false} InsideExactly(ts: seq<real>, values: seq<Option<real>>, lo: real, hi: real, n: nat, v: real)
    requires n <= |ts|
    ensures v in Filter(ts, values, lo, hi, n)
            <==> exists i: nat :: i < n && i < |values| && values[i] == Some(v) && lo <= ts[i] && ts[i] <= hi
  {
    if n > 0 {
      InsideExactly(ts, values, lo, hi, n - 1, v);
    }
  }

  function Sum(vs: seq<real>): real {
    if vs == [] then 0.0 else Sum(vs[..|vs| - 1]) + vs[|vs| - 1]
  }

  ghost predicate IsLeast(vs: seq<real>, m: real) {
    m in vs && forall i | 0 <= i < |vs| :: m <= vs[i]
  }

  ghost predicate IsGreatest(vs: seq<real>, m: real) {
    m in vs && forall i | 0 <= i < |vs| :: vs[i] <= m
  }

  ghost predicate IsStats(vs: seq<real>, r: Stats) {
    if vs == [] then r == NoStats
    else r.Stats? && r.count == |vs| && IsLeast(vs, r.min) && IsGreatest(vs, r.max) && r.avg * |vs| as real == Sum(vs)
  }

  /** The least index whose time is not before `v`. */
  method LowerBound(ts: seq<real>, v: real) returns (lo: nat)
    requires Ascending(ts)
    ensures lo <= |ts|
    ensures forall i | 0 <= i < |ts| :: ts[i] < v <==> i < lo
  {
    lo := 0;
    var hi := |ts|;
    while lo < hi
      invariant lo <= hi <= |ts|
      invariant forall i | 0 <= i < lo :: ts[i] < v
      invariant forall i | hi <= i < |ts| :: ts[i] >= v
    {
      var mid := (lo + hi) / 2;
      if ts[mid] < v {
        lo := mid + 1;
      } else {
        hi := mid;
      }
    }
  }

  /** The least index whose time is after `v`. */
  method UpperBound(ts: seq<real>, v: real) returns (lo: nat)
    requires Ascending(ts)
    ensures lo <= |ts|
    ensures forall i | 0 <= i < |ts| :: ts[i] <= v <==> i < lo
  {
    lo := 0;
    var hi := |ts|;
    while lo < hi
      invariant lo <= hi <= |ts|
      invariant forall i | 0 <= i < lo :: ts[i] <= v
      invariant forall i | hi <= i < |ts| :: ts[i] > v
    {
      var mid := (lo + hi) / 2;
      if ts[mid] <= v {
        lo := mid + 1;
      } else {
        hi := mid;
      }
    }
  }

  /** Filtering the first `n` samples is scanning those from `i0` up to `i1`. */
  function Scan(values: seq<Option<real>>, i0: nat, n: nat): seq<real> {
    if n <= i0 then [] else Scan(values, i0, n - 1) + At(values, n - 1)
  }

  lemma {:induction false} FilterIsScan(ts: seq<real>, values: seq<Option<real>>, lo: real, hi: real, i0: nat, i1: nat,
                                        n: nat)
    requires n <= |ts| && Covers(ts, lo, hi, i0, i1)
    ensures Filter(ts, values, lo, hi, n) == Scan(values, i0, if n <= i1 then n else i1)
  {
    if n > 0 {
      FilterIsScan(ts, values, lo, hi, i0, i1, n - 1);
      var f := Filter(ts, values, lo, hi, n - 1);
      assert n - 1 < i0 || i1 <= n - 1 ==> f + [] == f;
    }
  }

  lemma SumSnoc(vs: seq<real>, v: real)
    ensures Sum(vs + [v]) == Sum(vs) + v
  {
    assert (vs + [v])[..|vs|] == vs;
  }

  /** The accumulators after the values `vs`; the infinities the code starts from are `None`. */
  ghost predicate Accumulates(vs: seq<real>, min: Option<real>, max: Option<real>, sum: real, count: nat) {
    && count == |vs| && sum == Sum(vs)
    && if vs == [] then min == None && max == None
       else min.Some? && max.Some? && IsLeast(vs, min.value) && IsGreatest(vs, max.value)
  }

  method Accumulate(ghost vs: seq<real>, v: real, min: Option<real>, max: Option<real>, sum: real, count: nat)
    returns (min': Option<real>, max': Option<real>, sum': real, count': nat)
    requires Accumulates(vs, min, max, sum, count)
    ensures Accumulates(vs + [v], min', max', sum', count')
  {
    SumSnoc(vs, v);
    assert (vs + [v])[|vs|] == v;
    min', max' := min, max;
    if min.None? || v < min.value {
      min' := Some(v);
    }
    if max.None? || v > max.value {
      max' := Some(v);
    }
    sum', count' := sum + v, count + 1;
  }

  method ReadSample(values: seq<Option<real>>, i0: nat, i: nat, min: Option<real>, max: Option<real>, sum: real,
                    count: nat)
    returns (min': Option<real>, max': Option<real>, sum': real, count': nat)
    requires i0 <= i && Accumulates(Scan(values, i0, i), min, max, sum, count)
    ensures Accumulates(Scan(values, i0, i + 1), min', max', sum', count')
  {
    ghost var vs := Scan(values, i0, i);
    if i >= |values| || values[i].None? {
      assert vs + [] == vs;
      return min, max, sum, count;
    }
    min', max', sum', count' := Accumulate(vs, values[i].value, min, max, sum, count);
  }

  method ScanSeries(values: seq<Option<real>>, i0: nat, i1: nat) returns (r: Stats)
    requires i0 <= i1
    ensures IsStats(Scan(values, i0, i1), r)
  {
    var min: Option<real>, max: Option<real>, sum, count := None, None, 0.0, 0;
    for i := i0 to i1
      invariant Accumulates(Scan(values, i0, i), min, max, sum, count)
    {
      min, max, sum, count := ReadSample(values, i0, i, min, max, sum, count);
    }
    r := Finish(Scan(values, i0, i1), min, max, sum, count);
  }

  method Finish(ghost vs: seq<real>, min: Option<real>, max: Option<real>, sum: real, count: nat) returns (r: Stats)
    requires Accumulates(vs, min, max, sum, count)
    ensures IsStats(vs, r)
  {
    if count == 0 {
      return NoStats;
    }
    var avg := sum / count as real;
    assert avg * count as real == sum;
    r := Stats(min.value, max.value, avg, count);
  }

  /** The samples within the window are those from `i0` up to `i1`. */
  ghost predicate Covers(ts: seq<real>, lo: real, hi: real, i0: nat, i1: nat) {
    i1 <= |ts| && forall i | 0 <= i < |ts| :: lo <= ts[i] <= hi <==> i0 <= i < i1
  }

  method IndexRange(ts: seq<real>, lo: real, hi: real) returns (i0: nat, i1: nat)
    requires Ascending(ts) && lo <= hi
    ensures i0 <= i1 && Covers(ts, lo, hi, i0, i1)
  {
    i0 := LowerBound(ts, lo);
    i1 := UpperBound(ts, hi);
    assert i1 < |ts| ==> ts[i1] > hi;
  }

  /** Every series gets the statistics of its values between the two times, whichever comes first, both included. */
  ghost predicate StatsBetween(ts: seq<real>, series: seq<seq<Option<real>>>, a: real, b: real, rs: seq<Stats>) {
    |rs| == |series| && forall k | 0 <= k < |rs| ::
                          StatsOf(ts, series[k], if a <= b then a else b, if a <= b then b else a, rs[k])
  }

  /** On a sorted axis, every series gets the statistics of its values within the window; an end that is open is that of
      the axis. */
  method ComputeWindowedStats(ts: seq<real>, series: seq<seq<Option<real>>>, win: Option<Window>)
    returns (rs: seq<Stats>)
    requires Ascending(ts)
    ensures |rs| == |series| && (ts == [] ==> forall k | 0 <= k < |rs| :: rs[k] == NoStats)
    ensures ts != [] ==>
              var first, last := ts[0], ts[|ts| - 1];
              match win
              case None => StatsBetween(ts, series, first, last, rs)
              case Some(Window(None, None)) => StatsBetween(ts, series, first, last, rs)
              case Some(Window(Some(a), None)) => StatsBetween(ts, series, a, last, rs)
              case Some(Window(None, Some(b))) => StatsBetween(ts, series, first, b, rs)
              case Some(Window(Some(a), Some(b))) => StatsBetween(ts, series, a, b, rs)
    ensures ts != [] ==> StatsBetween(ts, series, Limits(ts, win).0, Limits(ts, win).1, rs)
  {
    var n := |ts|;
    if n == 0 || |series| == 0 {
      return seq(|series|, k => NoStats);
    }
    var lo := if win.Some? && win.value.min.Some? then win.value.min.value else ts[0];
    var hi := if win.Some? && win.value.max.Some? then win.value.max.value else ts[n - 1];
    if lo > hi {
      lo, hi := hi, lo;
    }
    rs := StatsWithin(ts, series, lo, hi);
  }

  ghost predicate StatsOf(ts: seq<real>, values: seq<Option<real>>, lo: real, hi: real, r: Stats) {
    IsStats(Inside(ts, values, lo, hi), r)
  }

  lemma NothingInside(ts: seq<real>, values: seq<Option<real>>, lo: real, hi: real, i: nat)
    requires Covers(ts, lo, hi, i, i)
    ensures StatsOf(ts, values, lo, hi, NoStats)
  {
    FilterIsScan(ts, values, lo, hi, i, i, |ts|);
  }

  method SeriesStats(ts: seq<real>, values: seq<Option<real>>, lo: real, hi: real, i0: nat, i1: nat) returns (r: Stats)
    requires i0 <= i1 && Covers(ts, lo, hi, i0, i1)
    ensures StatsOf(ts, values, lo, hi, r)
  {
    FilterIsScan(ts, values, lo, hi, i0, i1, |ts|);
    r := ScanSeries(values, i0, i1);
  }

  method StatsWithin(ts: seq<real>, series: seq<seq<Option<real>>>, lo: real, hi: real) returns (rs: seq<Stats>)
    requires Ascending(ts) && lo <= hi
    ensures |rs| == |series| && forall k | 0 <= k < |rs| :: StatsOf(ts, series[k], lo, hi, rs[k])
  {
    var i0, i1 := IndexRange(ts, lo, hi);
    if i1 <= i0 {
      forall k | 0 <= k < |series|
        ensures StatsOf(ts, series[k], lo, hi, NoStats)
      {
        NothingInside(ts, series[k], lo, hi, i0);
      }
      return seq(|series|, k => NoStats);
    }
    rs := [];
    for k := 0 to |series|
      invariant |rs| == k && forall x | 0 <= x < k :: StatsOf(ts, series[x], lo, hi, rs[x])
    {
      var r := SeriesStats(ts, series[k], lo, hi, i0, i1);
      rs := rs + [r];
    }
  }

  /** Without a window every sample is inside. */
  lemma NoWindowIsEverything(ts: seq<real>, i: nat)
    requires Ascending(ts) && i < |ts|
    ensures Limits(ts, None).0 <= ts[i] <= Limits(ts, None).1
    ensures Limits(ts, Some(Window(None, None))) == Limits(ts, None)
  {
  }

  /** A half-open window holds what its closed end says exactly when that end is not beyond the open one; otherwise
      the ends are swapped and a sample outside is taken in. */
  lemma OpenStartExactly(ts: seq<real>, max: real)
    requires Ascending(ts) && ts != []
    ensures (forall t | t in ts :: IsShown(ts, Window(None, Some(max)), t) <==> t <= max) <==> ts[0] <= max
  {
    assert ts[0] in ts;
  }

  lemma OpenEndExactly(ts: seq<real>, min: real)
    requires Ascending(ts) && ts != []
    ensures (forall t | t in ts :: IsShown(ts, Window(Some(min), None), t) <==> min <= t) <==> min <= ts[|ts| - 1]
  {
    assert ts[|ts| - 1] in ts;
  }

  /** A window with both ends shows the times between them, in whichever order they are given. */
  lemma WindowIsBetween(ts: seq<real>, a: real, b: real, t: real)
    requires ts != []
    ensures IsShown(ts, Window(Some(a), Some(b)), t) <==> (a <= t <= b || b <= t <= a)
  {
  }

  predicate IsShown(ts: seq<real>, win: Window, t: real)
    requires ts != []
  {
    Limits(ts, Some(win)).0 <= t <= Limits(ts, Some(win)).1
  }
}
