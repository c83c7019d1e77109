/** One parser over several files, with a reset between them, gives the same series as parsing each file
    alone and merging.  The two places that strip a counter at a snapshot boundary agree. */
module MysqladminStaging {
  import opened Prelude
  import opened Mysqladmin
  import opened MysqladminMerge

  datatype File = File(base: real, lines: seq<Line>)

  /** One parser over the first `k` files. */
  function ParseUpTo(files: seq<File>, k: nat, classify: string -> bool): Parser
    requires k <= |files|
  {
    if k == 0 then Start(0.0)
    else Parse(Reset(ParseUpTo(files, k - 1, classify), files[k - 1].base), files[k - 1].lines, classify)
  }

  function ParseAll(files: seq<File>, classify: string -> bool): Parser {
    ParseUpTo(files, |files|, classify)
  }

  function Alone(files: seq<File>, classify: string -> bool): seq<Option<Data>> {
    seq(|files|, i requires 0 <= i < |files| => ParseSingle(files[i].base, files[i].lines, classify))
  }

  function RowNames(lines: seq<Line>): set<string> {
    set i | 0 <= i < |lines| && lines[i].Row? :: lines[i].name
  }

  /** The file starts with a header and has a data row. */
  ghost predicate Proper(f: File) {
    f.lines != [] && f.lines[0].Header? && RowNames(f.lines) != {}
  }

  // One file.

  lemma RowNamesSnoc(lines: seq<Line>)
    requires lines != []
    ensures var before, line := lines[..|lines| - 1], lines[|lines| - 1];
            RowNames(lines) == RowNames(before) + if line.Row? then {line.name} else {}
  {
    var before := lines[..|lines| - 1];
    forall n | n in RowNames(before)
      ensures n in RowNames(lines)
    {
      var i :| 0 <= i < |before| && before[i].Row? && before[i].name == n;
      assert lines[i] == before[i];
    }
  }

  lemma {:induction false} FileNames(p: Parser, lines: seq<Line>, classify: string -> bool)
    requires OpensWithHeader(lines)
    ensures lines != [] ==> Parse(p, lines, classify).col > 0
    ensures Elements(Parse(p, lines, classify).order) == Elements(p.order) + RowNames(lines)
  {
    if lines == [] {
    } else if |lines| == 1 {
      assert lines[..0] == [] && RowNames(lines) == {};
    } else {
      var before := lines[..|lines| - 1];
      FileNames(p, before, classify);
      RowNamesSnoc(lines);
      var q, line := Parse(p, before, classify), lines[|lines| - 1];
      if line.Row? {
        assert line.name in q.order <==> line.name in Elements(q.order);
        assert Elements(q.order + [line.name]) == Elements(q.order) + {line.name};
      }
    }
  }

  /** Whether a file opens the capture only shows in the first slot of its counters. */
  lemma {:induction false} FirstOnlyShowsInFirstSlot(lines: seq<Line>, n: string, counter: bool)
    ensures var t, t' := TrackFile(lines, n, counter, true), TrackFile(lines, n, counter, false);
            && t'.last == t.last && |t'.series| == |t.series|
            && t'.series == if counter && t.series != [] then [NaN] + t.series[1..] else t.series
  {
    if lines != [] {
      FirstOnlyShowsInFirstSlot(lines[..|lines| - 1], n, counter);
    }
  }

  lemma {:induction false} TrackAbsent(lines: seq<Line>, n: string, counter: bool, first: bool)
    requires n !in RowNames(lines)
    ensures var t := TrackFile(lines, n, counter, first); t.series == Gap(|t.series|)
  {
    if lines != [] {
      RowNamesSnoc(lines);
      TrackAbsent(lines[..|lines| - 1], n, counter, first);
    }
  }

  lemma StartIsReady(base: real, classify: string -> bool)
    ensures Valid(Start(base), classify) && Fresh(Start(base))
    ensures forall n :: View(Start(base), n) == []
  {
  }

  /** What parsing a file alone yields, name by name. */
  ghost predicate IsAlone(f: File, d: Data, classify: string -> bool) {
    && Elements(d.names) == RowNames(f.lines) == d.deltas.Keys == d.isCounter.Keys
    && Lists(d.names, RowNames(f.lines))
    && (forall n | n in d.isCounter :: d.isCounter[n] == classify(n))
    && (forall n | n in d.deltas :: d.deltas[n] == TrackFile(f.lines, n, classify(n), true).series)
    && (forall n :: |TrackFile(f.lines, n, classify(n), true).series| == d.sampleCount)
    && d.sampleCount > 0 && d.boundaries == [0]
  }

  /** The view of `n` is its reference series, one slot per column. */
  ghost predicate IsTracked(p: Parser, f: File, n: string, classify: string -> bool) {
    var t := TrackFile(f.lines, n, classify(n), true);
    View(p, n) == t.series && |t.series| == p.col
  }

  lemma FinishTracked(p: Parser, f: File, classify: string -> bool)
    requires Valid(p, classify) && p.col > 0 && p.boundaries == [0]
    requires Elements(p.order) == RowNames(f.lines) != {}
    requires forall n :: IsTracked(p, f, n, classify)
    ensures Finish(p).Some? && IsAlone(f, Finish(p).value, classify)
  {
    SortNames(p.order);
    assert forall n :: n in p.order <==> n in Elements(p.order);
    assert p.order != [] by {
      assert Elements<string>([]) == {};
    }
    forall n
      ensures |TrackFile(f.lines, n, classify(n), true).series| == p.col
      ensures n in p.order ==> Pad(Series(p.values, n), p.col) == TrackFile(f.lines, n, classify(n), true).series
    {
      assert IsTracked(p, f, n, classify);
    }
  }

  lemma AloneIsAlone(f: File, classify: string -> bool)
    requires Proper(f)
    ensures ParseSingle(f.base, f.lines, classify).Some?
    ensures IsAlone(f, ParseSingle(f.base, f.lines, classify).value, classify)
  {
    var p0 := Start(f.base);
    var p := Parse(p0, f.lines, classify);
    StartIsReady(f.base, classify);
    ParseKeepsValid(p0, f.lines, classify);
    FileNames(p0, f.lines, classify);
    forall n
      ensures IsTracked(p, f, n, classify) && p.boundaries == [0] && p.col > 0
    {
      FileTracks(p0, f.lines, n, classify);
      HeaderOpensSeries(f.lines, n, classify(n), true);
    }
    assert IsTracked(p, f, "", classify);
    FinishTracked(p, f, classify);
  }

  // Several files.

  /** A parser that has read the files behind `ds`. */
  ghost predicate Staged(p: Parser, ds: seq<Data>, classify: string -> bool) {
    && Valid(p, classify)
    && p.col == TotalCount(ds) && (p.col == 0 <==> ds == [])
    && p.boundaries == (if ds == [] then [0] else Offsets(ds))
    && Elements(p.order) == AllNames(ds)
    && forall n :: ViewIs(p, ds, n, classify)
  }

  ghost predicate ViewIs(p: Parser, ds: seq<Data>, n: string, classify: string -> bool) {
    View(p, n) == MergedSeries(ds, n, classify(n))
  }

  lemma ResetIsReady(p: Parser, base: real, classify: string -> bool)
    requires Valid(p, classify) && (p.col == 0 ==> p.boundaries == [0])
    ensures Valid(Reset(p, base), classify) && Fresh(Reset(p, base))
  {
  }

  lemma SortedIsDistinct(names: seq<string>)
    requires Sorted(names, StringLess)
    ensures Distinct(names)
  {
    forall i, j | 0 <= i < j < |names|
      ensures names[i] != names[j]
    {
      StringTotal(names[i], names[i]);
    }
  }

  /** A snapshot lists each of its names once. */
  lemma AlonePiece(f: File, d: Data, n: string, first: bool, classify: string -> bool)
    requires IsAlone(f, d, classify)
    ensures Piece(d, n, classify(n), first) == if n in d.names then Slots(d, n, classify(n), first) else []
  {
    SortedIsDistinct(d.names);
    ListedOnce(d.names, d, n, classify(n), first);
  }

  /** The merge appends for a snapshot what the parser would have appended for its file. */
  lemma PieceIsTrack(f: File, d: Data, n: string, first: bool, classify: string -> bool)
    requires IsAlone(f, d, classify)
    ensures Pad(Piece(d, n, classify(n), first), d.sampleCount) == TrackFile(f.lines, n, classify(n), first).series
  {
    FirstOnlyShowsInFirstSlot(f.lines, n, classify(n));
    AlonePiece(f, d, n, first, classify);
    assert n in d.names <==> n in Elements(d.names);
    if n !in d.names {
      TrackAbsent(f.lines, n, classify(n), first);
    }
  }

  lemma PadAfter(s: seq<Slot>, piece: seq<Slot>, n: nat)
    requires |piece| <= n
    ensures Pad(s + piece, |s| + n) == s + Pad(piece, n)
  {
  }

  ghost predicate AloneAt(files: seq<File>, ds: seq<Data>, i: nat, classify: string -> bool)
    requires i < |files| == |ds|
  {
    Proper(files[i]) && IsAlone(files[i], ds[i], classify)
  }

  ghost predicate AllAlone(files: seq<File>, ds: seq<Data>, classify: string -> bool) {
    |files| == |ds| && forall i | 0 <= i < |files| :: AloneAt(files, ds, i, classify)
  }

  lemma MergedSnoc(ds: seq<Data>, d: Data, n: string, counter: bool)
    requires |MergedSeries(ds, n, counter)| == TotalCount(ds)
    requires |Piece(d, n, counter, ds == [])| <= d.sampleCount
    ensures TotalCount(ds + [d]) == TotalCount(ds) + d.sampleCount
    ensures Offsets(ds + [d]) == Offsets(ds) + [TotalCount(ds)]
    ensures MergedSeries(ds + [d], n, counter)
            == MergedSeries(ds, n, counter) + Pad(Piece(d, n, counter, ds == []), d.sampleCount)
  {
    assert (ds + [d])[..|ds|] == ds;
    PadAfter(MergedSeries(ds, n, counter), Piece(d, n, counter, ds == []), d.sampleCount);
  }

  lemma StagedView(p: Parser, ds: seq<Data>, f: File, d: Data, n: string, classify: string -> bool)
    requires Staged(p, ds, classify) && IsAlone(f, d, classify) && OpensWithHeader(f.lines)
    ensures var q := Parse(Reset(p, f.base), f.lines, classify);
            && View(q, n) == MergedSeries(ds + [d], n, classify(n))
            && q.col == p.col + d.sampleCount && q.boundaries == Reset(p, f.base).boundaries
            && TotalCount(ds + [d]) == TotalCount(ds) + d.sampleCount
            && Offsets(ds + [d]) == Offsets(ds) + [TotalCount(ds)]
  {
    var p0 := Reset(p, f.base);
    ResetIsReady(p, f.base, classify);
    FileTracks(p0, f.lines, n, classify);
    assert ViewIs(p, ds, n, classify) && View(p0, n) == View(p, n);
    PieceIsTrack(f, d, n, ds == [], classify);
    FirstOnlyShowsInFirstSlot(f.lines, n, classify(n));
    MergedSnoc(ds, d, n, classify(n));
  }

  lemma StagedStep(p: Parser, ds: seq<Data>, f: File, d: Data, classify: string -> bool)
    requires Staged(p, ds, classify) && IsAlone(f, d, classify) && OpensWithHeader(f.lines)
    ensures Staged(Parse(Reset(p, f.base), f.lines, classify), ds + [d], classify)
  {
    var p0 := Reset(p, f.base);
    var q := Parse(p0, f.lines, classify);
    ResetIsReady(p, f.base, classify);
    ParseKeepsValid(p0, f.lines, classify);
    FileNames(p0, f.lines, classify);
    assert (ds + [d])[..|ds|] == ds;
    AllNamesSnoc(ds + [d]);
    forall n
      ensures ViewIs(q, ds + [d], n, classify)
    {
      StagedView(p, ds, f, d, n, classify);
    }
    StagedView(p, ds, f, d, "", classify);
    assert ds == [] ==> Offsets(ds) == [];
  }

  lemma NothingStaged(classify: string -> bool)
    ensures Staged(Start(0.0), [], classify)
  {
    StartIsReady(0.0, classify);
    assert AllNames([]) == {};
  }

  lemma StagedNext(p: Parser, ds: seq<Data>, f: File, d: Data, q: Parser, ds': seq<Data>, classify: string -> bool)
    requires Staged(p, ds, classify) && IsAlone(f, d, classify) && OpensWithHeader(f.lines)
    requires q == Parse(Reset(p, f.base), f.lines, classify) && ds' == ds + [d]
    ensures Staged(q, ds', classify)
  {
    StagedStep(p, ds, f, d, classify);
  }

  lemma ParseNext(files: seq<File>, k: nat, classify: string -> bool)
    requires 0 < k <= |files|
    ensures ParseUpTo(files, k, classify)
            == Parse(Reset(ParseUpTo(files, k - 1, classify), files[k - 1].base), files[k - 1].lines, classify)
  {
  }

  lemma {:induction false} AllFilesStaged(files: seq<File>, ds: seq<Data>, k: nat, classify: string -> bool)
    requires AllAlone(files, ds, classify) && k <= |files|
    ensures Staged(ParseUpTo(files, k, classify), ds[..k], classify)
  {
    if k == 0 {
      NothingStaged(classify);
    } else {
      AllFilesStaged(files, ds, k - 1, classify);
      assert AloneAt(files, ds, k - 1, classify);
      ParseNext(files, k, classify);
      var p, q, d := ParseUpTo(files, k - 1, classify), ParseUpTo(files, k, classify), ds[k - 1];
      var before, after := ds[..k - 1], ds[..k];
      PrefixSnoc(ds, k);
      StagedNext(p, before, files[k - 1], d, q, after, classify);
    }
  }

  /** Each file parsed alone yields data, so that none is dropped by the merge. */
  lemma {:induction false} AloneIsPresent(files: seq<File>, classify: string -> bool)
    requires forall i | 0 <= i < |files| :: Proper(files[i])
    ensures AllAlone(files, Present(Alone(files, classify)), classify)
  {
    if files != [] {
      var k := |files| - 1;
      var before, ins := Alone(files[..k], classify), Alone(files, classify);
      AloneIsPresent(files[..k], classify);
      AloneIsAlone(files[k], classify);
      var d := ParseSingle(files[k].base, files[k].lines, classify).value;
      assert ins[..k] == before && ins[k] == Some(d);
      AllAloneSnoc(files, Present(before), d, classify);
    }
  }

  lemma AllAloneSnoc(files: seq<File>, ds: seq<Data>, d: Data, classify: string -> bool)
    requires files != [] && AllAlone(files[..|files| - 1], ds, classify)
    requires Proper(files[|files| - 1]) && IsAlone(files[|files| - 1], d, classify)
    ensures AllAlone(files, ds + [d], classify)
  {
    var before := files[..|files| - 1];
    forall i | 0 <= i < |files|
      ensures AloneAt(files, ds + [d], i, classify)
    {
      if i < |ds| {
        assert AloneAt(before, ds, i, classify);
        assert before[i] == files[i];
      }
    }
  }

  lemma AnyCountsIsClass(files: seq<File>, ds: seq<Data>, n: string, classify: string -> bool)
    requires AllAlone(files, ds, classify)
    ensures AnyCounts(ds, n) <==> n in AllNames(ds) && classify(n)
  {
    if i :| 0 <= i < |ds| && Counts(ds[i].isCounter, n) {
      assert AloneAt(files, ds, i, classify);
      assert n in Elements(ds[i].names);
    }
    if n in AllNames(ds) && classify(n) {
      var i :| 0 <= i < |ds| && n in ds[i].names;
      assert AloneAt(files, ds, i, classify);
      assert n in Elements(ds[i].names) && Counts(ds[i].isCounter, n);
    }
  }

  /** The data agree, up to the timestamps (the parser has a single ladder for all files). */
  ghost predicate SameSeries(a: Data, b: Data) {
    && a.names == b.names && a.sampleCount == b.sampleCount && a.boundaries == b.boundaries
    && a.deltas == b.deltas
    && forall n :: Counts(a.isCounter, n) == Counts(b.isCounter, n)
  }

  /** Parsing in one go and merging files parsed alone give the same names, counts, series and boundaries. */
  lemma OneParserEqualsMerge(files: seq<File>, merged: Data, classify: string -> bool)
    requires files != [] && forall i | 0 <= i < |files| :: Proper(files[i])
    requires var ds := Present(Alone(files, classify)); if |ds| == 1 then merged == ds[0] else IsMerge(ds, merged)
    ensures Finish(ParseAll(files, classify)).Some?
    ensures SameSeries(Finish(ParseAll(files, classify)).value, merged)
  {
    var ds := Present(Alone(files, classify));
    AloneIsPresent(files, classify);
    AllFilesStaged(files, ds, |files|, classify);
    assert ds[..|files|] == ds;
    FirstHasName(files, ds, classify);
    FinishIsFinish(ParseAll(files, classify), ds, classify);
    FinishIsMerge(files, ds, ParseAll(files, classify), Finish(ParseAll(files, classify)).value, merged, classify);
  }

  lemma FinishIsMerge(files: seq<File>, ds: seq<Data>, p: Parser, d: Data, merged: Data, classify: string -> bool)
    requires AllAlone(files, ds, classify) && ds != [] && IsFinish(d, p, ds, classify)
    requires if |ds| == 1 then merged == ds[0] else IsMerge(ds, merged)
    ensures SameSeries(d, merged)
  {
    if |ds| == 1 {
      assert AloneAt(files, ds, 0, classify);
      assert ds == [ds[0]];
      OnlyFile(files[0], ds[0], d, p, classify);
    } else {
      ManyFiles(files, ds, d, p, merged, classify);
    }
  }

  lemma FirstHasName(files: seq<File>, ds: seq<Data>, classify: string -> bool)
    requires AllAlone(files, ds, classify) && files != []
    ensures AllNames(ds) != {}
  {
    assert AloneAt(files, ds, 0, classify);
    var n :| n in RowNames(files[0].lines);
    assert n in Elements(ds[0].names);
    assert n in AllNames(ds);
  }

  /** What `OneParserEqualsMerge` knows of the data of the single parser. */
  ghost predicate IsFinish(d: Data, p: Parser, ds: seq<Data>, classify: string -> bool) {
    && d.sampleCount == TotalCount(ds) && d.boundaries == Offsets(ds) && Lists(d.names, AllNames(ds))
    && d.deltas.Keys == AllNames(ds) == d.isCounter.Keys
    && (forall n | n in d.deltas :: d.deltas[n] == MergedSeries(ds, n, classify(n)))
    && (forall n | n in d.isCounter :: d.isCounter[n] == classify(n))
  }

  lemma FinishIsFinish(p: Parser, ds: seq<Data>, classify: string -> bool)
    requires Staged(p, ds, classify) && ds != [] && AllNames(ds) != {}
    ensures Finish(p).Some? && IsFinish(Finish(p).value, p, ds, classify)
  {
    assert p.order != [] by {
      assert Elements(p.order) == AllNames(ds) != {};
    }
    SortNames(p.order);
    assert forall n :: n in p.order <==> n in Elements(p.order);
    var d := Finish(p).value;
    forall n | n in d.deltas
      ensures d.deltas[n] == MergedSeries(ds, n, classify(n))
    {
      assert ViewIs(p, ds, n, classify) && d.deltas[n] == View(p, n);
    }
  }

  lemma SingleAxis(e: Data)
    ensures AllNames([e]) == Elements(e.names) && TotalCount([e]) == e.sampleCount && Offsets([e]) == [0]
  {
    assert [e][..0] == [];
    AllNamesSnoc([e]);
    assert AllNames([]) == {};
  }

  lemma SingleSeries(f: File, e: Data, n: string, classify: string -> bool)
    requires IsAlone(f, e, classify) && n in e.deltas
    ensures MergedSeries([e], n, classify(n)) == e.deltas[n]
  {
    PieceIsTrack(f, e, n, true, classify);
    assert [e][..0] == [] && MergedSeries([], n, classify(n)) == [];
    assert [] + Piece(e, n, classify(n), true) == Piece(e, n, classify(n), true);
    SingleAxis(e);
  }

  lemma OnlyFile(f: File, e: Data, d: Data, p: Parser, classify: string -> bool)
    requires IsAlone(f, e, classify) && IsFinish(d, p, [e], classify)
    ensures SameSeries(d, e)
  {
    SingleAxis(e);
    NamesUnique(d.names, e.names);
    forall n | n in d.deltas
      ensures d.deltas[n] == e.deltas[n]
    {
      SingleSeries(f, e, n, classify);
    }
  }

  lemma SameCounts(files: seq<File>, ds: seq<Data>, d: Data, p: Parser, merged: Data, n: string,
                   classify: string -> bool)
    requires AllAlone(files, ds, classify) && IsMerge(ds, merged) && IsFinish(d, p, ds, classify)
    ensures Counts(d.isCounter, n) == Counts(merged.isCounter, n)
    ensures n in AllNames(ds) ==> AnyCounts(ds, n) == classify(n)
  {
    AnyCountsIsClass(files, ds, n, classify);
    assert Counts(merged.isCounter, n) <==> n in AllNames(ds) && AnyCounts(ds, n);
  }

  lemma ManyFiles(files: seq<File>, ds: seq<Data>, d: Data, p: Parser, merged: Data, classify: string -> bool)
    requires AllAlone(files, ds, classify) && IsMerge(ds, merged) && IsFinish(d, p, ds, classify)
    ensures SameSeries(d, merged)
  {
    NamesUnique(d.names, merged.names);
    forall n
      ensures Counts(d.isCounter, n) == Counts(merged.isCounter, n)
      ensures n in AllNames(ds) ==> AnyCounts(ds, n) == classify(n)
    {
      SameCounts(files, ds, d, p, merged, n, classify);
    }
    SameDeltas(ds, d, p, merged, classify);
  }

  lemma SameDeltas(ds: seq<Data>, d: Data, p: Parser, merged: Data, classify: string -> bool)
    requires IsMerge(ds, merged) && IsFinish(d, p, ds, classify)
    requires forall n | n in AllNames(ds) :: AnyCounts(ds, n) == classify(n)
    ensures d.deltas == merged.deltas
  {
    forall n | n in d.deltas
      ensures d.deltas[n] == merged.deltas[n]
    {
      assert n in AllNames(ds) && n in merged.deltas;
    }
  }
}
