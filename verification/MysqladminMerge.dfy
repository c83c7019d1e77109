/** Merging the data of several snapshots onto one axis, and the equivalence with parsing them in one go.

    Source: model/mysqladmin_merge.go. */
module MysqladminMerge {
  import opened Prelude
  import opened Mysqladmin

  function Present(ins: seq<Option<Data>>): seq<Data> {
    if ins == [] then []
    else Present(ins[..|ins| - 1]) +
         match ins[|ins| - 1]
         case Some(d) => if d.sampleCount > 0 then [d] else []
         case None => []
  }

  /** The snapshots with samples, in order. */
  lemma {:induction false} KeptExactly(ins: seq<Option<Data>>, d: Data)
    ensures d in Present(ins) <==> d.sampleCount > 0 && exists i | 0 <= i < |ins| :: ins[i] == Some(d)
  {
    if ins != [] {
      KeptExactly(ins[..|ins| - 1], d);
    }
  }

  lemma {:induction false} KeptInOrder(before: seq<Option<Data>>, after: seq<Option<Data>>)
    ensures Present(before + after) == Present(before) + Present(after)
  {
    if after == [] {
      assert before + after == before;
    } else {
      KeptInOrder(before, after[..|after| - 1]);
      assert (before + after)[..|before + after| - 1] == before + after[..|after| - 1];
    }
  }

  function AllNames(ds: seq<Data>): set<string> {
    set i, n | 0 <= i < |ds| && n in ds[i].names :: n
  }

  predicate AnyCounts(ds: seq<Data>, n: string) {
    exists i | 0 <= i < |ds| :: Counts(ds[i].isCounter, n)
  }

  function TotalCount(ds: seq<Data>): nat {
    if ds == [] then 0 else TotalCount(ds[..|ds| - 1]) + ds[|ds| - 1].sampleCount
  }

  function Offsets(ds: seq<Data>): seq<nat> {
    if ds == [] then [] else Offsets(ds[..|ds| - 1]) + [TotalCount(ds[..|ds| - 1])]
  }

  function Times(ds: seq<Data>): seq<real> {
    if ds == [] then [] else Times(ds[..|ds| - 1]) + ds[|ds| - 1].timestamps
  }

  /** One listing of a name in a snapshot: after the first snapshot, a counter's raw tally gives way to a NaN marker. */
  function Slots(d: Data, n: string, counter: bool, first: bool): seq<Slot> {
    if n !in d.deltas then []
    else if !first && counter && d.deltas[n] != [] then [NaN] + d.deltas[n][1..]
    else d.deltas[n]
  }

  /** What a snapshot contributes for `n` by the listed names, once for each time that it is listed. */
  function Listed(names: seq<string>, d: Data, n: string, counter: bool, first: bool): seq<Slot> {
    if names == [] then []
    else Listed(names[..|names| - 1], d, n, counter, first) +
         if names[|names| - 1] == n then Slots(d, n, counter, first) else []
  }

  function Piece(d: Data, n: string, counter: bool, first: bool): seq<Slot> {
    Listed(d.names, d, n, counter, first)
  }

  lemma {:induction false} ListedOnce(names: seq<string>, d: Data, n: string, counter: bool, first: bool)
    requires Distinct(names)
    ensures Listed(names, d, n, counter, first) == if n in names then Slots(d, n, counter, first) else []
  {
    if names != [] {
      ListedOnce(names[..|names| - 1], d, n, counter, first);
    }
  }

  function MergedSeries(ds: seq<Data>, n: string, counter: bool): seq<Slot> {
    if ds == [] then []
    else Pad(MergedSeries(ds[..|ds| - 1], n, counter) + Piece(ds[|ds| - 1], n, counter, |ds| == 1), TotalCount(ds))
  }

  /** The names in dictionary order; `NamesUnique` says that there is only one such sequence. */
  ghost predicate Lists(s: seq<string>, names: set<string>) {
    Sorted(s, StringLess) && Elements(s) == names
  }

  /** `m` is the merge of two or more snapshots. */
  ghost predicate IsMerge(ds: seq<Data>, m: Data) {
    && Lists(m.names, AllNames(ds))
    && m.sampleCount == TotalCount(ds)
    && m.timestamps == Times(ds)
    && m.boundaries == Offsets(ds)
    && m.isCounter.Keys == (set n | n in AllNames(ds) && AnyCounts(ds, n))
    && (forall n | n in m.isCounter :: m.isCounter[n])
    && m.deltas.Keys == AllNames(ds)
    && (forall n | n in m.deltas :: m.deltas[n] == MergedSeries(ds, n, AnyCounts(ds, n)))
  }

  lemma AllNamesSnoc(ds: seq<Data>)
    requires ds != []
    ensures AllNames(ds) == AllNames(ds[..|ds| - 1]) + Elements(ds[|ds| - 1].names)
  {
    var before := ds[..|ds| - 1];
    forall n | n in AllNames(before)
      ensures n in AllNames(ds)
    {
      var i :| 0 <= i < |before| && n in before[i].names;
      assert ds[i] == before[i];
    }
  }

  method KeepPresent(ins: seq<Option<Data>>) returns (ds: seq<Data>)
    ensures ds == Present(ins)
  {
    ds := [];
    for i := 0 to |ins|
      invariant ds == Present(ins[..i])
    {
      assert ins[..i + 1][..i] == ins[..i];
      match ins[i]
      case Some(d) =>
        if d.sampleCount > 0 {
          ds := ds + [d];
        }
      case None =>
    }
    assert ins[..|ins|] == ins;
  }

  /** The map's keys in whatever order, sorted. */
  method CollectNames(ds: seq<Data>) returns (names: seq<string>)
    ensures Lists(names, AllNames(ds))
  {
    var nameSet: set<string> := {};
    for i := 0 to |ds|
      invariant nameSet == AllNames(ds[..i])
    {
      assert ds[..i + 1][..i] == ds[..i];
      AllNamesSnoc(ds[..i + 1]);
      nameSet := nameSet + Elements(ds[i].names);
    }
    assert ds[..|ds|] == ds;
    names := AnyOrder(nameSet);
    SortNames(names);
    names := Sort(names, StringLess);
  }

  method CountsInAny(ds: seq<Data>, n: string) returns (found: bool)
    ensures found == AnyCounts(ds, n)
  {
    found := false;
    for i := 0 to |ds|
      invariant !found && forall j | 0 <= j < i :: !Counts(ds[j].isCounter, n)
    {
      if Counts(ds[i].isCounter, n) {
        return true;
      }
    }
  }

  method ClassifyNames(ds: seq<Data>, names: seq<string>) returns (isCounter: map<string, bool>)
    ensures isCounter.Keys == set n | n in names && AnyCounts(ds, n)
    ensures forall n | n in isCounter :: isCounter[n]
  {
    isCounter := map[];
    for k := 0 to |names|
      invariant isCounter.Keys == set n | n in names[..k] && AnyCounts(ds, n)
      invariant forall n | n in isCounter :: isCounter[n]
    {
      assert names[..k + 1] == names[..k] + [names[k]];
      var found := CountsInAny(ds, names[k]);
      if found {
        isCounter := isCounter[names[k] := true];
      }
    }
    assert names[..|names|] == names;
  }

  method AppendSlots(d: Data, n: string, counter: bool, first: bool, series: seq<Slot>) returns (out: seq<Slot>)
    ensures out == series + Slots(d, n, counter, first)
  {
    if n !in d.deltas {
      return series;
    }
    var src := d.deltas[n];
    if !first && counter && |src| > 0 {
      out := series + [NaN] + src[1..];
    } else {
      out := series + src;
    }
  }

  lemma ListedSnoc(names: seq<string>, k: nat, d: Data, n: string, counter: bool, first: bool)
    requires k < |names|
    ensures Listed(names[..k + 1], d, n, counter, first)
            == Listed(names[..k], d, n, counter, first) + if names[k] == n then Slots(d, n, counter, first) else []
  {
    assert names[..k + 1][..k] == names[..k];
  }

  /** The series of `n` after the first `k` names of a snapshot. */
  ghost predicate IsAppended(d: Data, first: bool, counter: bool, k: nat, n: string, before: seq<Slot>,
                             after: seq<Slot>)
    requires k <= |d.names|
  {
    after == before + Listed(d.names[..k], d, n, counter, first)
  }

  lemma OneMoreListed(d: Data, first: bool, counter: bool, k: nat, n: string, before: seq<Slot>, after: seq<Slot>)
    requires k < |d.names| && IsAppended(d, first, counter, k, n, before, after)
    ensures IsAppended(d, first, counter, k + 1, n, before,
                       after + if d.names[k] == n then Slots(d, n, counter, first) else [])
  {
    ListedSnoc(d.names, k, d, n, counter, first);
  }

  /** Appends the contribution of one snapshot to the series of each of its names. */
  method AppendPieces(d: Data, first: bool, isCounter: map<string, bool>, deltas: map<string, seq<Slot>>)
    returns (out: map<string, seq<Slot>>)
    requires Elements(d.names) <= deltas.Keys
    ensures out.Keys == deltas.Keys
    ensures forall n | n in deltas :: out[n] == deltas[n] + Piece(d, n, Counts(isCounter, n), first)
  {
    out := deltas;
    for k := 0 to |d.names|
      invariant out.Keys == deltas.Keys
      invariant forall n | n in deltas :: IsAppended(d, first, Counts(isCounter, n), k, n, deltas[n], out[n])
    {
      var name := d.names[k];
      assert name in Elements(d.names);
      ghost var was := out;
      var longer := AppendSlots(d, name, Counts(isCounter, name), first, out[name]);
      out := out[name := longer];
      forall n | n in deltas
        ensures IsAppended(d, first, Counts(isCounter, n), k + 1, n, deltas[n], out[n])
      {
        OneMoreListed(d, first, Counts(isCounter, n), k, n, deltas[n], was[n]);
        assert was[n] + [] == was[n];
      }
    }
    assert d.names[..|d.names|] == d.names;
  }

  method PadAll(names: seq<string>, target: nat, deltas: map<string, seq<Slot>>) returns (out: map<string, seq<Slot>>)
    requires Elements(names) == deltas.Keys
    ensures out.Keys == deltas.Keys
    ensures forall n | n in deltas :: out[n] == Pad(deltas[n], target)
  {
    out := deltas;
    for k := 0 to |names|
      invariant out.Keys == deltas.Keys
      invariant forall n | n in deltas :: out[n] == if n in names[..k] then Pad(deltas[n], target) else deltas[n]
    {
      assert names[..k + 1] == names[..k] + [names[k]];
      assert names[k] in Elements(names);
      var s := PadSlots(out[names[k]], target);
      out := out[names[k] := s];
    }
    assert forall n | n in deltas :: n in Elements(names);
    assert names[..|names|] == names;
  }

  method MergeMysqladminData(ins: seq<Option<Data>>) returns (out: Option<Data>)
    ensures var ds := Present(ins);
            match |ds|
            case 0 => out == None
            case 1 => out == Some(ds[0])
            case _ => out.Some? && IsMerge(ds, out.value)
  {
    var ds := KeepPresent(ins);
    if |ds| == 0 {
      return None;
    }
    if |ds| == 1 {
      return Some(ds[0]);
    }
    var merged := MergePresent(ds);
    out := Some(merged);
  }

  /** The series after one more snapshot. */
  method MergeOne(ds: seq<Data>, i: nat, names: seq<string>, isCounter: map<string, bool>,
                  deltas: map<string, seq<Slot>>)
    returns (out: map<string, seq<Slot>>)
    requires i < |ds| && Elements(ds[i].names) <= deltas.Keys == Elements(names)
    requires forall n | n in deltas :: deltas[n] == MergedSeries(ds[..i], n, Counts(isCounter, n))
    ensures out.Keys == deltas.Keys
    ensures forall n | n in out :: out[n] == MergedSeries(ds[..i + 1], n, Counts(isCounter, n))
  {
    assert ds[..i + 1][..i] == ds[..i];
    out := AppendPieces(ds[i], i == 0, isCounter, deltas);
    out := PadAll(names, TotalCount(ds[..i]) + ds[i].sampleCount, out);
  }

  /** The loop's state after the first `i` snapshots. */
  ghost predicate MergedSoFar(ds: seq<Data>, i: nat, isCounter: map<string, bool>, deltas: map<string, seq<Slot>>)
    requires i <= |ds|
  {
    forall n | n in deltas :: deltas[n] == MergedSeries(ds[..i], n, Counts(isCounter, n))
  }

  method MergePresent(ds: seq<Data>) returns (m: Data)
    ensures IsMerge(ds, m)
  {
    var names := CollectNames(ds);
    var isCounter := ClassifyNames(ds, names);
    var timestamps, boundaries, cumulative := [], [], 0;
    var deltas: map<string, seq<Slot>> := map n | n in names :: [];
    for i := 0 to |ds|
      invariant timestamps == Times(ds[..i]) && boundaries == Offsets(ds[..i]) && cumulative == TotalCount(ds[..i])
      invariant deltas.Keys == Elements(names) && MergedSoFar(ds, i, isCounter, deltas)
    {
      assert ds[..i + 1][..i] == ds[..i];
      assert Elements(ds[i].names) <= AllNames(ds);
      boundaries := boundaries + [cumulative];
      timestamps := timestamps + ds[i].timestamps;
      deltas := MergeOne(ds, i, names, isCounter, deltas);
      cumulative := cumulative + ds[i].sampleCount;
    }
    m := Data(names, cumulative, timestamps, deltas, isCounter, boundaries);
    AllMerged(ds, names, isCounter, deltas, timestamps, boundaries, cumulative);
  }

  lemma AllMerged(ds: seq<Data>, names: seq<string>, isCounter: map<string, bool>, deltas: map<string, seq<Slot>>,
                  timestamps: seq<real>, boundaries: seq<nat>, cumulative: nat)
    requires Lists(names, AllNames(ds)) && deltas.Keys == Elements(names) && MergedSoFar(ds, |ds|, isCounter, deltas)
    requires isCounter.Keys == (set n | n in AllNames(ds) && AnyCounts(ds, n))
    requires forall n | n in isCounter :: isCounter[n]
    requires timestamps == Times(ds[..|ds|]) && boundaries == Offsets(ds[..|ds|])
    requires cumulative == TotalCount(ds[..|ds|])
    ensures IsMerge(ds, Data(names, cumulative, timestamps, deltas, isCounter, boundaries))
  {
    assert ds[..|ds|] == ds;
  }
}
