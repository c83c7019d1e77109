/** Totals and rates of counters over a capture.  Source: findings/inputs.go. */
module FindingsInputs {
  import opened Prelude
  import opened Mysqladmin

  function Number(s: Slot): real {
    if s.Val? then s.v else 0.0
  }

  /** The sum of the values present. */
  function SumVals(s: seq<Slot>): real {
    if s == [] then 0.0 else SumVals(s[..|s| - 1]) + Number(s[|s| - 1])
  }

  lemma {:induction false} SumConcat(a: seq<Slot>, b: seq<Slot>)
    ensures SumVals(a + b) == SumVals(a) + SumVals(b)
  {
    if b == [] {
      assert a + b == a;
    } else {
      var n := |b| - 1;
      SumConcat(a, b[..n]);
      assert (a + b)[..|a + b| - 1] == a + b[..n];
    }
  }

  /** The total of a counter without its first slot, which holds the initial tally. */
  function Total(m: Option<Data>, name: string): Option<real> {
    if m.None? || !Counts(m.value.isCounter, name) || name !in m.value.deltas || |m.value.deltas[name]| < 2 then None
    else Some(SumVals(m.value.deltas[name][1..]))
  }

  method CounterTotal(m: Option<Data>, name: string) returns (total: real, ok: bool)
    ensures ok == Total(m, name).Some? && (ok ==> total == Total(m, name).value)
  {
    if m.None? || !Counts(m.value.isCounter, name) || name !in m.value.deltas {
      return 0.0, false;
    }
    var arr := m.value.deltas[name];
    if |arr| < 2 {
      return 0.0, false;
    }
    total, ok := 0.0, true;
    for i := 1 to |arr|
      invariant total == SumVals(arr[1..i])
    {
      assert arr[1..i + 1][..i - 1] == arr[1..i];
      if arr[i].NaN? {
        continue;
      }
      total := total + arr[i].v;
    }
    assert arr[1..|arr|] == arr[1..];
  }

  /** The last sample of the block that begins at the `i`-th boundary. */
  function BlockEnd(boundaries: seq<nat>, n: nat, i: nat): int
    requires i < |boundaries|
  {
    if i + 1 < |boundaries| then boundaries[i + 1] - 1 else n - 1
  }

  function BlockSeconds(ts: seq<real>, boundaries: seq<nat>, i: nat): real
    requires i < |boundaries|
  {
    var start, end := boundaries[i], BlockEnd(boundaries, |ts|, i);
    if end <= start || end >= |ts| then 0.0 else Max(0.0, ts[end] - ts[start])
  }

  function SecondsUpTo(ts: seq<real>, boundaries: seq<nat>, k: nat): real
    requires k <= |boundaries|
  {
    if k == 0 then 0.0 else SecondsUpTo(ts, boundaries, k - 1) + BlockSeconds(ts, boundaries, k - 1)
  }

  /** The seconds covered by the snapshots, gaps between them excluded. */
  function Seconds(m: Option<Data>): real {
    if m.None? || |m.value.timestamps| < 2 then 0.0 else
    var boundaries := if m.value.boundaries == [] then [0] else m.value.boundaries;
    SecondsUpTo(m.value.timestamps, boundaries, |boundaries|)
  }

  method CaptureSeconds(m: Option<Data>) returns (total: real)
    ensures total == Seconds(m) >= 0.0
  {
    if m.None? || |m.value.timestamps| < 2 {
      return 0.0;
    }
    var ts := m.value.timestamps;
    var boundaries := if |m.value.boundaries| == 0 then [0] else m.value.boundaries;
    total := 0.0;
    for i := 0 to |boundaries|
      invariant total == SecondsUpTo(ts, boundaries, i) >= 0.0
    {
      var start := boundaries[i];
      var end := if i + 1 < |boundaries| then boundaries[i + 1] - 1 else |ts| - 1;
      if end <= start || end >= |ts| {
        continue;
      }
      var d := ts[end] - ts[start];
      if d > 0.0 {
        total := total + d;
      }
    }
  }

  method CounterRatePerSec(m: Option<Data>, name: string) returns (rate: real, ok: bool)
    ensures ok <==> Total(m, name).Some? && Seconds(m) > 0.0
    ensures ok ==> rate * Seconds(m) == Total(m, name).value
  {
    var total, found := CounterTotal(m, name);
    if !found {
      return 0.0, false;
    }
    var secs := CaptureSeconds(m);
    if secs <= 0.0 {
      return 0.0, false;
    }
    rate, ok := total / secs, true;
  }

  /** The largest value present of a gauge. */
  method GaugeMax(m: Option<Data>, name: string) returns (best: real, ok: bool)
    ensures ok <==> && m.Some? && !Counts(m.value.isCounter, name) && name in m.value.deltas
                    && exists i | 0 <= i < |m.value.deltas[name]| :: m.value.deltas[name][i].Val?
    ensures ok ==> && (exists i | 0 <= i < |m.value.deltas[name]| :: m.value.deltas[name][i] == Val(best))
                   && (forall i | 0 <= i < |m.value.deltas[name]| && m.value.deltas[name][i].Val? ::
                         m.value.deltas[name][i].v <= best)
  {
    best, ok := 0.0, false;
    if m.None? || Counts(m.value.isCounter, name) || name !in m.value.deltas {
      return;
    }
    var arr := m.value.deltas[name];
    for i := 0 to |arr|
      invariant ok <==> exists j | 0 <= j < i :: arr[j].Val?
      invariant ok ==> exists j | 0 <= j < i :: arr[j] == Val(best)
      invariant ok ==> forall j | 0 <= j < i && arr[j].Val? :: arr[j].v <= best
    {
      if arr[i].NaN? {
        continue;
      }
      if !ok || arr[i].v > best {
        best, ok := arr[i].v, true;
      }
    }
  }
}
