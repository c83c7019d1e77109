/** Conservation through parsing and merging: what the total of a counter adds up to, in raw values. */
module Conservation {
  import opened Prelude
  import opened Mysqladmin
  import opened MysqladminMerge
  import opened MysqladminStaging
  import opened FindingsInputs
  import opened PtMext

  /** The raw value of the first row of `n`, and whether that row is in the first sample. */
  function FirstRaw(lines: seq<Line>, n: string): int {
    if lines == [] then 0 else
    var before, line := lines[..|lines| - 1], lines[|lines| - 1];
    if line.Row? && line.name == n && !Occurs(before, n) then line.value else FirstRaw(before, n)
  }

  predicate Occurs(lines: seq<Line>, n: string) {
    exists i | 0 <= i < |lines| :: lines[i].Row? && lines[i].name == n
  }

  predicate InFirstSample(lines: seq<Line>, n: string) {
    lines != [] &&
    (var before, line := lines[..|lines| - 1], lines[|lines| - 1];
     InFirstSample(before, n) || (line.Row? && line.name == n && |TrackFile(before, n, true, true).series| == 1))
  }

  /** The raw value of the last row of `n`. */
  function LastRaw(lines: seq<Line>, n: string): int {
    if lines == [] then 0 else
    var line := lines[|lines| - 1];
    if line.Row? && line.name == n then line.value else LastRaw(lines[..|lines| - 1], n)
  }

  /** What the counter gained in one file, first sample to last. */
  function Gain(lines: seq<Line>, n: string): int {
    LastRaw(lines, n) - FirstRaw(lines, n)
  }

  /** A counter that first appears later contributes its raw tally as if it had been zero before. */
  function Late(lines: seq<Line>, n: string): int {
    if InFirstSample(lines, n) then 0 else FirstRaw(lines, n)
  }

  lemma OccursSnoc(lines: seq<Line>, n: string)
    requires lines != []
    ensures Occurs(lines, n) <==>
            Occurs(lines[..|lines| - 1], n) || (lines[|lines| - 1].Row? && lines[|lines| - 1].name == n)
  {
    var k := |lines| - 1;
    if i :| 0 <= i < |lines[..k]| && lines[..k][i].Row? && lines[..k][i].name == n {
      assert lines[i].Row? && lines[i].name == n;
    }
    if i :| 0 <= i < |lines| && lines[i].Row? && lines[i].name == n {
      assert i < k ==> lines[..k][i] == lines[i];
    }
  }

  lemma {:induction false} LastRawExactly(lines: seq<Line>, n: string, j: nat)
    requires j < |lines| && IsRowOf(lines[j], n) && forall x | j < x < |lines| :: !IsRowOf(lines[x], n)
    ensures LastRaw(lines, n) == lines[j].value
  {
    if j < |lines| - 1 {
      LastRawExactly(lines[..|lines| - 1], n, j);
    }
  }

  predicate IsRowOf(line: Line, n: string) {
    line.Row? && line.name == n
  }

  lemma {:induction false} FirstRawExactly(lines: seq<Line>, n: string, i: nat)
    requires OpensWithHeader(lines) && i < |lines| && IsRowOf(lines[i], n)
    requires forall x | 0 <= x < i :: !IsRowOf(lines[x], n)
    ensures FirstRaw(lines, n) == lines[i].value
    ensures InFirstSample(lines, n) <==> Sample(lines[..i]) == 1
  {
    var before := lines[..|lines| - 1];
    if i < |lines| - 1 {
      FirstRawExactly(before, n, i);
      assert before[i] == lines[i] && Occurs(before, n);
      assert before[..i] == lines[..i];
      LaterIsNoEarlier(lines, n, i);
    } else {
      assert !Occurs(before, n);
      NotInFirst(before, n);
      SeriesFits(before, n);
    }
  }

  lemma {:induction false} SeriesFits(lines: seq<Line>, n: string)
    ensures |TrackFile(lines, n, true, true).series| == Sample(lines)
  {
    if lines != [] {
      SeriesFits(lines[..|lines| - 1], n);
    }
  }

  lemma {:induction false} NotInFirst(lines: seq<Line>, n: string)
    requires !Occurs(lines, n)
    ensures !InFirstSample(lines, n)
  {
    if lines != [] {
      OccursSnoc(lines, n);
      NotInFirst(lines[..|lines| - 1], n);
    }
  }

  /** A row after one in a later sample is not in the first either. */
  lemma LaterIsNoEarlier(lines: seq<Line>, n: string, i: nat)
    requires i < |lines| - 1 && OpensWithHeader(lines) && IsRowOf(lines[i], n)
    ensures Sample(lines[..i]) <= |TrackFile(lines[..|lines| - 1], n, true, true).series|
    ensures Sample(lines[..i]) >= 1
  {
    var before := lines[..|lines| - 1];
    SeriesFits(before, n);
    SamplesGrow(before, i);
    assert before[..i] == lines[..i];
    assert i > 0 && lines[..i][0].Header?;
    SamplesGrow(lines[..i], 1);
    assert lines[..i][..1] == [lines[0]] && [lines[0]][..0] == [];
    assert Sample([lines[0]]) == 1;
  }

  /** In raw values: the gain is the last reading less the first; the late tally is the first reading, unless that is in
      the first sample. */
  lemma GainExactly(lines: seq<Line>, n: string, i: nat, j: nat)
    requires OpensWithHeader(lines) && i <= j < |lines| && IsRowOf(lines[i], n) && IsRowOf(lines[j], n)
    requires forall x | 0 <= x < i || j < x < |lines| :: !IsRowOf(lines[x], n)
    ensures Gain(lines, n) == lines[j].value - lines[i].value
    ensures Late(lines, n) == if Sample(lines[..i]) == 1 then 0 else lines[i].value
  {
    FirstRawExactly(lines, n, i);
    LastRawExactly(lines, n, j);
  }

  /** The state of one file's series against its raw values. */
  ghost predicate Conserves(lines: seq<Line>, n: string) {
    var t := TrackFile(lines, n, true, true);
    && t.last == LastRaw(lines, n)
    && (!Occurs(lines, n) ==> t.last == FirstRaw(lines, n) == 0 && !InFirstSample(lines, n))
    && (|t.series| == 1 ==> (Occurs(lines, n) <==> Seen(lines, n)))
    && (|t.series| == 1 && Occurs(lines, n) ==> InFirstSample(lines, n) && t.last == FirstRaw(lines, n))
    && (if t.series == [] then lines == [] else
        SumVals(t.series[1..]) == (Gain(lines, n) + Late(lines, n)) as real)
  }

  lemma {:induction false} FileConserves(lines: seq<Line>, n: string)
    requires OpensWithHeader(lines) && OncePerSample(lines, n)
    ensures Conserves(lines, n)
  {
    if lines != [] {
      var before, line := lines[..|lines| - 1], lines[|lines| - 1];
      FileConserves(before, n);
      OccursSnoc(lines, n);
      if before != [] {
        HeaderOpensSeries(before, n, true, true);
        match line
        case Header => SumOfHeader(TrackFile(before, n, true, true).series);
        case Row(m, v) =>
          if m == n {
            OwnRowConserves(before, n, v);
            assert before + [line] == lines;
          }
      }
    }
  }

  lemma OwnRowConserves(before: seq<Line>, n: string, v: int)
    requires OpensWithHeader(before) && before != [] && Conserves(before, n) && !Seen(before, n)
    ensures Conserves(before + [Row(n, v)], n)
  {
    var lines := before + [Row(n, v)];
    assert lines[..|lines| - 1] == before;
    OccursSnoc(lines, n);
    UnseenIsNaN(before, n, true);
    var t := TrackFile(before, n, true, true);
    if |t.series| > 1 {
      SumOfUpdate(t.series, (v - t.last) as real);
    }
  }

  // Several files.

  function Gains(files: seq<File>, n: string): int {
    if files == [] then 0 else Gains(files[..|files| - 1], n) + Gain(files[|files| - 1].lines, n)
  }

  function Lates(files: seq<File>, n: string): int {
    if files == [] then 0 else Lates(files[..|files| - 1], n) + Late(files[|files| - 1].lines, n)
  }

  lemma AppendKeepsSum(s: seq<Slot>, more: seq<Slot>)
    requires s != []
    ensures SumVals((s + more)[1..]) == SumVals(s[1..]) + SumVals(more)
  {
    assert (s + more)[1..] == s[1..] + more;
    SumConcat(s[1..], more);
  }

  lemma NaNFirst(s: seq<Slot>)
    requires s != []
    ensures SumVals([NaN] + s[1..]) == SumVals(s[1..])
  {
    SumConcat([NaN], s[1..]);
    assert [NaN][..0] == [];
  }

  /** What a snapshot's contribution to the merged series must add up to. */
  ghost predicate Adds(d: Data, n: string, first: bool, sum: int) {
    var piece := Piece(d, n, true, first);
    && |piece| <= d.sampleCount && d.sampleCount > 0
    && SumVals(if first then Pad(piece, d.sampleCount)[1..] else Pad(piece, d.sampleCount)) == sum as real
  }

  /** The sum of a file's series, as the first file or a later one. */
  lemma TrackSum(lines: seq<Line>, n: string, first: bool)
    requires OpensWithHeader(lines) && lines != [] && OncePerSample(lines, n)
    ensures var series := TrackFile(lines, n, true, first).series;
            && series != []
            && SumVals(if first then series[1..] else series) == (Gain(lines, n) + Late(lines, n)) as real
  {
    FileConserves(lines, n);
    HeaderOpensSeries(lines, n, true, true);
    FirstOnlyShowsInFirstSlot(lines, n, true);
    NaNFirst(TrackFile(lines, n, true, true).series);
  }

  lemma PieceFits(f: File, d: Data, n: string, first: bool, classify: string -> bool)
    requires IsAlone(f, d, classify) && classify(n)
    ensures |Piece(d, n, true, first)| <= d.sampleCount
  {
    AlonePiece(f, d, n, first, classify);
    assert n in d.names ==> n in Elements(d.names);
  }

  lemma PieceSum(f: File, d: Data, n: string, first: bool, classify: string -> bool)
    requires Proper(f) && IsAlone(f, d, classify) && classify(n) && OncePerSample(f.lines, n)
    ensures Adds(d, n, first, Gain(f.lines, n) + Late(f.lines, n))
  {
    PieceIsTrack(f, d, n, first, classify);
    PieceFits(f, d, n, first, classify);
    TrackSum(f.lines, n, first);
  }

  /** The merged series of `ds` and the sum of its values after the first slot. */
  ghost predicate SumsTo(ds: seq<Data>, n: string, sum: int) {
    var s := MergedSeries(ds, n, true);
    && |s| == TotalCount(ds) && (ds == [] <==> s == [])
    && if ds == [] then sum == 0 else SumVals(s[1..]) == sum as real
  }

  lemma OneMoreSum(ds: seq<Data>, d: Data, n: string, sum: int, more: int)
    requires SumsTo(ds, n, sum) && Adds(d, n, ds == [], more)
    ensures SumsTo(ds + [d], n, sum + more)
  {
    MergedSnoc(ds, d, n, true);
    if ds != [] {
      AppendKeepsSum(MergedSeries(ds, n, true), Pad(Piece(d, n, true, false), d.sampleCount));
    } else {
      assert MergedSeries(ds + [d], n, true) == Pad(Piece(d, n, true, true), d.sampleCount);
    }
  }

  lemma {:induction false} MergedSum(files: seq<File>, ds: seq<Data>, k: nat, n: string, classify: string -> bool)
    requires AllAlone(files, ds, classify) && k <= |files| && classify(n)
    requires forall i | 0 <= i < |files| :: OncePerSample(files[i].lines, n)
    ensures SumsTo(ds[..k], n, Gains(files[..k], n) + Lates(files[..k], n))
  {
    if k > 0 {
      MergedSum(files, ds, k - 1, n, classify);
      assert AloneAt(files, ds, k - 1, classify);
      PieceSum(files[k - 1], ds[k - 1], n, ds[..k - 1] == [], classify);
      SumsSnoc(files, k, n);
      var sum := Gains(files[..k - 1], n) + Lates(files[..k - 1], n);
      var more := Gain(files[k - 1].lines, n) + Late(files[k - 1].lines, n);
      OneMoreSum(ds[..k - 1], ds[k - 1], n, sum, more);
      PrefixSnoc(ds, k);
    }
  }

  lemma SumsSnoc(files: seq<File>, k: nat, n: string)
    requires 0 < k <= |files|
    ensures Gains(files[..k], n) == Gains(files[..k - 1], n) + Gain(files[k - 1].lines, n)
    ensures Lates(files[..k], n) == Lates(files[..k - 1], n) + Late(files[k - 1].lines, n)
  {
    assert files[..k][..k - 1] == files[..k - 1];
  }

  /** The merge of the files, each parsed alone. */
  ghost predicate Merged(files: seq<File>, m: Data, classify: string -> bool) {
    var ds := Present(Alone(files, classify));
    (|ds| == 1 ==> m == ds[0]) && (|ds| != 1 ==> IsMerge(ds, m))
  }

  /** A capture in which the counter occurs at most once per sample. */
  ghost predicate Measured(files: seq<File>, m: Data, n: string, classify: string -> bool) {
    && files != [] && AllFit(files, n) && Merged(files, m, classify)
    && n in m.deltas && classify(n) && m.sampleCount >= 2
  }

  ghost predicate AllFit(files: seq<File>, n: string) {
    && (forall i | 0 <= i < |files| :: Proper(files[i]))
    && forall i | 0 <= i < |files| :: OncePerSample(files[i].lines, n)
  }

  /** The total of a counter is what it gained within the snapshots, plus the raw tallies of the snapshots in which
      it first appears after the first sample. */
  lemma TotalIsGainPlusLate(files: seq<File>, m: Data, n: string, sum: int, classify: string -> bool)
    requires Measured(files, m, n, classify) && sum == Gains(files, n) + Lates(files, n)
    ensures TotalIs(m, n, sum)
  {
    AloneIsPresent(files, classify);
    TotalOfMerged(files, Present(Alone(files, classify)), m, n, sum, classify);
  }

  lemma TotalFromSum(ds: seq<Data>, m: Data, n: string, sum: int)
    requires n in m.deltas && Counts(m.isCounter, n) && m.deltas[n] == MergedSeries(ds, n, true)
    requires SumsTo(ds, n, sum) && ds != [] && TotalCount(ds) >= 2
    ensures TotalIs(m, n, sum)
  {
  }

  predicate TotalIs(m: Data, n: string, sum: int) {
    Total(Some(m), n) == Some(sum as real)
  }

  lemma TotalOfMerged(files: seq<File>, ds: seq<Data>, m: Data, n: string, sum: int, classify: string -> bool)
    requires sum == Gains(files, n) + Lates(files, n)
    requires AllAlone(files, ds, classify) && files != []
    requires if |ds| == 1 then m == ds[0] else IsMerge(ds, m)
    requires n in m.deltas && classify(n) && m.sampleCount >= 2
    requires forall i | 0 <= i < |files| :: OncePerSample(files[i].lines, n)
    ensures TotalIs(m, n, sum)
  {
    MergedLookup(files, ds, m, n, classify);
    AllSum(files, ds, n, classify);
    TotalFromSum(ds, m, n, sum);
  }

  lemma AllSum(files: seq<File>, ds: seq<Data>, n: string, classify: string -> bool)
    requires AllAlone(files, ds, classify) && files != [] && classify(n)
    requires forall i | 0 <= i < |files| :: OncePerSample(files[i].lines, n)
    ensures SumsTo(ds, n, Gains(files, n) + Lates(files, n))
  {
    MergedSum(files, ds, |files|, n, classify);
    assert ds[..|files|] == ds && files[..|files|] == files;
  }

  lemma MergedLookup(files: seq<File>, ds: seq<Data>, m: Data, n: string, classify: string -> bool)
    requires AllAlone(files, ds, classify) && files != [] && n in m.deltas && classify(n)
    requires if |ds| == 1 then m == ds[0] else IsMerge(ds, m)
    ensures m.deltas[n] == MergedSeries(ds, n, true) && Counts(m.isCounter, n) && m.sampleCount == TotalCount(ds)
  {
    if |ds| == 1 {
      assert AloneAt(files, ds, 0, classify);
      assert ds == [ds[0]];
      SingleAxis(ds[0]);
      SingleSeries(files[0], ds[0], n, classify);
    } else {
      AnyCountsIsClass(files, ds, n, classify);
    }
  }

  /** Conservation, exactly: the total is the sum over the snapshots of last raw value minus first, if and only if
      the tallies of the snapshots in which the counter appears late add up to zero. */
  lemma ConservedExactly(files: seq<File>, m: Data, n: string, classify: string -> bool, gains: int)
    requires Measured(files, m, n, classify) && gains == Gains(files, n)
    ensures TotalIs(m, n, gains) <==> Lates(files, n) == 0
  {
    TotalIsGainPlusLate(files, m, n, gains + Lates(files, n), classify);
    OneTotal(Total(Some(m), n), gains, Lates(files, n));
  }

  lemma OneTotal(total: Option<real>, a: int, b: int)
    requires total == Some((a + b) as real)
    ensures total == Some(a as real) <==> b == 0
  {
  }

  /** In particular when every snapshot that carries the counter has it in its first sample. */
  lemma {:induction false} PresentFirstIsNotLate(files: seq<File>, n: string)
    requires forall i | 0 <= i < |files| :: OpensWithHeader(files[i].lines) && OncePerSample(files[i].lines, n)
    requires forall i | 0 <= i < |files| :: Occurs(files[i].lines, n) ==> InFirstSample(files[i].lines, n)
    ensures Lates(files, n) == 0
  {
    if files != [] {
      PresentFirstIsNotLate(files[..|files| - 1], n);
      FileConserves(files[|files| - 1].lines, n);
    }
  }

  // A counter that appears late.

  const LATE := [Header, Header, Row("c", 5)]

  lemma LateReading()
    ensures TrackFile(LATE, "c", true, true) == Track([NaN, Val(5.0)], 5) && OncePerSample(LATE, "c")
    ensures FirstRaw(LATE, "c") == LastRaw(LATE, "c") == 5 && !InFirstSample(LATE, "c")
  {
    var one, two := [Header], [Header, Header];
    assert LATE[..2] == two && two[..1] == one && one[..0] == [];
    assert TrackFile(one, "c", true, true) == Track([NaN], 0);
    assert TrackFile(two, "c", true, true) == Track([NaN, NaN], 0);
    assert OncePerSample(one, "c") && OncePerSample(two, "c");
    assert !InFirstSample(one, "c") && !InFirstSample(two, "c");
  }

  lemma OneFileSums(f: File, n: string)
    ensures Gains([f], n) == Gain(f.lines, n) && Lates([f], n) == Late(f.lines, n)
  {
    assert [f][..0] == [];
  }

  lemma OneFileMeasured(f: File, d: Data, n: string, classify: string -> bool)
    requires Proper(f) && ParseSingle(f.base, f.lines, classify) == Some(d) && IsAlone(f, d, classify)
    requires n in RowNames(f.lines) && classify(n) && d.sampleCount >= 2 && OncePerSample(f.lines, n)
    ensures Measured([f], d, n, classify)
  {
    OneFileAlone(f, d, classify);
  }

  lemma LateIsProper(base: real)
    ensures Proper(File(base, LATE)) && "c" in RowNames(LATE)
  {
    assert LATE[2].name in RowNames(LATE);
  }

  /** A snapshot with two samples, in which the counter gains nothing but appears late. */
  ghost predicate IsLate(f: File, n: string, tally: int) {
    && Proper(f) && n in RowNames(f.lines) && OncePerSample(f.lines, n)
    && |TrackFile(f.lines, n, true, true).series| == 2
    && Gain(f.lines, n) == 0 && Late(f.lines, n) == tally
  }

  /** The total is then the raw tally, although nothing was gained. */
  lemma LateTallyCounts(f: File, d: Data, n: string, tally: int, classify: string -> bool)
    requires IsLate(f, n, tally) && classify(n) && ParseSingle(f.base, f.lines, classify) == Some(d)
    ensures Measured([f], d, n, classify) && TotalIs(d, n, tally)
    ensures Gains([f], n) == 0 && Lates([f], n) == tally
  {
    LateIsMeasured(f, d, n, tally, classify);
    OneFileSums(f, n);
    TotalIsGainPlusLate([f], d, n, tally, classify);
  }

  lemma LateIsMeasured(f: File, d: Data, n: string, tally: int, classify: string -> bool)
    requires IsLate(f, n, tally) && classify(n) && ParseSingle(f.base, f.lines, classify) == Some(d)
    ensures Measured([f], d, n, classify)
  {
    AloneIsAlone(f, classify);
    TwoSamples(f, d, n, classify);
    OneFileMeasured(f, d, n, classify);
  }

  /** There is such a snapshot: the counter is missing from the first sample. */
  lemma LateSnapshot(base: real)
    ensures IsLate(File(base, LATE), "c", 5)
  {
    LateReading();
    LateIsProper(base);
  }

  lemma TwoSamples(f: File, d: Data, n: string, classify: string -> bool)
    requires IsAlone(f, d, classify) && classify(n) && |TrackFile(f.lines, n, true, true).series| == 2
    ensures d.sampleCount == 2
  {
  }

  lemma OneFileAlone(f: File, d: Data, classify: string -> bool)
    requires ParseSingle(f.base, f.lines, classify) == Some(d) && d.sampleCount > 0
    ensures Present(Alone([f], classify)) == [d]
  {
    var ins := Alone([f], classify);
    assert ins == [Some(d)] && ins[..0] == [];
    assert Present(ins[..0]) == [];
  }
}
