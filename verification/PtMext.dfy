/** The reference delta computation, and how far the parser refines it.

    Source: the main loop of _references/pt-mext/pt-mext-improved.cpp. */
module PtMext {
  import opened Prelude
  import opened Mysqladmin
  import opened FindingsInputs
  import opened MysqladminStaging

  /** What is kept of a name's deltas after the first column. */
  datatype Stats = Stats(total: int, least: int, greatest: int, average: int)

  const NO_STATS := Stats(0, 0, 0, 0)

  /** `result` maps a name to its columns. */
  datatype Mext = Mext(col: nat, result: map<string, map<nat, int>>, previous: map<string, int>,
                       stats: map<string, Stats>)

  function Columns(m: Mext, n: string): map<nat, int> {
    if n in m.result then m.result[n] else map[]
  }

  function StatsOf(m: Mext, n: string): Stats {
    if n in m.stats then m.stats[n] else NO_STATS
  }

  /** Integer division as in C++: towards zero. */
  function Quotient(a: int, b: nat): int
    requires b > 0
  {
    if a >= 0 then a / b else -((-a) / b)
  }

  /** `q` is `a / b` without its fraction, with the sign of `a`. */
  predicate IsTruncated(q: int, a: int, b: nat) {
    if a >= 0 then q >= 0 && q * b <= a && a < (q + 1) * b else q <= 0 && q * b >= a && a > (q - 1) * b
  }

  predicate IsFloor(p: int, a: int, b: nat) {
    p >= 0 && p * b <= a && a < (p + 1) * b
  }

  lemma Floors(a: nat, b: nat)
    requires b > 0
    ensures IsFloor(a / b, a, b)
  {
    Spread(a / b, b);
  }

  lemma Spread(p: int, b: int)
    ensures (p + 1) * b == p * b + b
    ensures (-p) * b == -(p * b) && (-p - 1) * b == -((p + 1) * b)
  {
  }

  lemma FloorTruncates(p: int, a: int, b: nat)
    requires IsFloor(p, a, b)
    ensures IsTruncated(p, a, b) && (a > 0 ==> IsTruncated(-p, -a, b))
  {
    Spread(p, b);
  }

  lemma QuotientTruncates(a: int, b: nat)
    requires b > 0
    ensures IsTruncated(Quotient(a, b), a, b)
  {
    var n: nat := if a >= 0 then a else -a;
    Floors(n, b);
    FloorTruncates(n / b, n, b);
  }

  function AddDelta(s: Stats, delta: int, col: nat): Stats
    requires col > 0
  {
    Stats(s.total + delta, if delta < s.least || col == 2 then delta else s.least,
          if delta > s.greatest then delta else s.greatest, Quotient(s.total + delta, col))
  }

  function MextStep(m: Mext, line: Line): Mext {
    match line
    case Header => m.(col := m.col + 1)
    case Row(n, v) =>
      var delta := v - Previous(m.previous, n);
      Mext(m.col, m.result[n := Columns(m, n)[m.col := delta]], m.previous[n := v],
           if m.col > 1 then m.stats[n := AddDelta(StatsOf(m, n), delta, m.col)] else m.stats)
  }

  function MextOf(lines: seq<Line>): Mext {
    if lines == [] then Mext(0, map[], map[], map[]) else MextStep(MextOf(lines[..|lines| - 1]), lines[|lines| - 1])
  }

  lemma MextSnoc(lines: seq<Line>, i: nat)
    requires i < |lines|
    ensures MextOf(lines[..i + 1]) == MextStep(MextOf(lines[..i]), lines[i])
  {
    assert lines[..i + 1][..i] == lines[..i];
  }

  method ReadLine(line: Line, col: nat, result: map<string, map<nat, int>>, previous: map<string, int>,
                  stats: map<string, Stats>)
    returns (col': nat, result': map<string, map<nat, int>>, previous': map<string, int>, stats': map<string, Stats>)
    ensures Mext(col', result', previous', stats') == MextStep(Mext(col, result, previous, stats), line)
  {
    col', result', previous', stats' := col, result, previous, stats;
    match line
    case Header => col' := col + 1;
    case Row(n, v) =>
      var columns := if n in result then result[n] else map[];
      var delta := v - (if n in previous then previous[n] else 0);
      result' := result[n := columns[col := delta]];
      previous' := previous[n := v];
      if col > 1 {
        var s := if n in stats then stats[n] else NO_STATS;
        var total := s.total + delta;
        var least := if delta < s.least || col == 2 then delta else s.least;
        var greatest := if delta > s.greatest then delta else s.greatest;
        stats' := stats[n := Stats(total, least, greatest, Quotient(total, col))];
      }
  }

  /** The reference as code. */
  method RunMext(lines: seq<Line>) returns (result: map<string, map<nat, int>>, stats: map<string, Stats>)
    ensures result == MextOf(lines).result && stats == MextOf(lines).stats
  {
    var col := 0;
    var previous: map<string, int> := map[];
    result, stats := map[], map[];
    for i := 0 to |lines|
      invariant Mext(col, result, previous, stats) == MextOf(lines[..i])
    {
      MextSnoc(lines, i);
      col, result, previous, stats := ReadLine(lines[i], col, result, previous, stats);
    }
    assert lines[..|lines|] == lines;
  }

  /** What the slot of a counter should be, given the reference. */
  function Expected(m: Mext, n: string, c: nat): Slot {
    if c in Columns(m, n) then Val(Columns(m, n)[c] as real) else NaN
  }

  /** The raw value that the last row of `n` in the first sample replaced; 0 if it was the only one. */
  function Overwritten(lines: seq<Line>, n: string): int {
    if lines == [] then 0 else
    var before, line := lines[..|lines| - 1], lines[|lines| - 1];
    var t := TrackFile(before, n, true, true);
    if line.Row? && line.name == n && |t.series| == 1 then t.last else Overwritten(before, n)
  }

  /** The parser's reference series and pt-mext side by side; `replaced` is the value of `Overwritten`. */
  ghost predicate Beside(t: Track, m: Mext, n: string, replaced: int) {
    && |t.series| == m.col && t.last == Previous(m.previous, n)
    && (forall c | 2 <= c <= m.col :: t.series[c - 1] == Expected(m, n, c))
    && (forall c | c in Columns(m, n) :: 1 <= c <= m.col)
    && (m.col >= 1 ==> (t.series[0] == Expected(m, n, 1) <==> replaced == 0))
    && (m.col >= 1 ==> (t.series[0].NaN? <==> 1 !in Columns(m, n)))
    && (m.col == 0 ==> replaced == 0 == t.last)
    && (m.col == 1 && 1 !in Columns(m, n) ==> t.last == 0)
  }

  lemma HeaderBeside(t: Track, m: Mext, n: string, replaced: int)
    requires Beside(t, m, n, replaced)
    ensures Beside(TrackStep(t, Header, n, true, true), MextStep(m, Header), n, replaced)
  {
    var m' := MextStep(m, Header);
    assert forall c: nat :: Expected(m', n, c) == Expected(m, n, c);
  }

  lemma OtherRowBeside(t: Track, m: Mext, n: string, replaced: int, other: string, v: int)
    requires Beside(t, m, n, replaced) && other != n
    ensures Beside(TrackStep(t, Row(other, v), n, true, true), MextStep(m, Row(other, v)), n, replaced)
  {
    var m' := MextStep(m, Row(other, v));
    assert Columns(m', n) == Columns(m, n) && Previous(m'.previous, n) == Previous(m.previous, n);
    assert forall c: nat :: Expected(m', n, c) == Expected(m, n, c);
  }

  lemma OwnRowBeside(t: Track, m: Mext, n: string, replaced: int, v: int)
    requires Beside(t, m, n, replaced) && m.col > 0
    ensures Beside(TrackStep(t, Row(n, v), n, true, true), MextStep(m, Row(n, v)), n,
                   if |t.series| == 1 then t.last else replaced)
  {
    var t', m' := TrackStep(t, Row(n, v), n, true, true), MextStep(m, Row(n, v));
    var delta := v - Previous(m.previous, n);
    assert Columns(m', n) == Columns(m, n)[m.col := delta];
    assert forall c: nat | c != m.col :: Expected(m', n, c) == Expected(m, n, c);
    assert m.col == 1 ==> Expected(m', n, 1) == Val(delta as real) && t'.series == [Val(v as real)];
  }

  lemma {:induction false} RunBeside(lines: seq<Line>, n: string)
    requires OpensWithHeader(lines)
    ensures Beside(TrackFile(lines, n, true, true), MextOf(lines), n, Overwritten(lines, n))
  {
    if |lines| > 0 {
      var before, line := lines[..|lines| - 1], lines[|lines| - 1];
      RunBeside(before, n);
      var t, m := TrackFile(before, n, true, true), MextOf(before);
      match line
      case Header => HeaderBeside(t, m, n, Overwritten(before, n));
      case Row(name, v) =>
        if name != n {
          OtherRowBeside(t, m, n, Overwritten(before, n), name, v);
        } else {
          HeaderOpensSeries(before, n, true, true);
          OwnRowBeside(t, m, n, Overwritten(before, n), v);
        }
    }
  }

  /** Every slot of a counter but the first is what the reference computes, NaN where it has no value, and the
      series has one slot per column.  The first slot agrees exactly when the name did not replace a value other
      than zero in the first sample: there the reference subtracts, and the parser does not. */
  lemma ParserRefinesReference(f: File, n: string, classify: string -> bool)
    requires Proper(f) && n in RowNames(f.lines) && classify(n)
    ensures ParseSingle(f.base, f.lines, classify).Some?
    ensures var d, m := ParseSingle(f.base, f.lines, classify).value, MextOf(f.lines);
            && n in d.deltas && |d.deltas[n]| == d.sampleCount == m.col
            && (forall c | 2 <= c <= m.col :: d.deltas[n][c - 1] == Expected(m, n, c))
            && (d.deltas[n][0] == Expected(m, n, 1) <==> Overwritten(f.lines, n) == 0)
  {
    AloneIsAlone(f, classify);
    RunBeside(f.lines, n);
    assert n in Elements(ParseSingle(f.base, f.lines, classify).value.names);
  }

  // Names that occur at most once in a sample.

  /** A row of `n` has been read since the last header. */
  function Seen(lines: seq<Line>, n: string): bool {
    lines != [] &&
    match lines[|lines| - 1]
    case Header => false
    case Row(m, _) => m == n || Seen(lines[..|lines| - 1], n)
  }

  predicate OncePerSample(lines: seq<Line>, n: string) {
    lines == [] ||
    (var before := lines[..|lines| - 1];
     OncePerSample(before, n) && (lines[|lines| - 1].Row? && lines[|lines| - 1].name == n ==> !Seen(before, n)))
  }

  lemma {:induction false} SeenExactly(lines: seq<Line>, n: string, s: nat)
    requires s == Sample(lines)
    ensures Seen(lines, n) <==> exists i: nat :: IsReading(lines, i, n, s)
  {
    if lines != [] {
      var k := |lines| - 1;
      var before := lines[..k];
      SeenExactly(before, n, Sample(before));
      SameReadings(lines, n, s);
      match lines[k]
      case Header =>
        NothingReadYet(before, n, s);
        assert forall i: nat | i < k :: !IsReading(before, i, n, s);
      case Row(m, _) =>
        assert s == Sample(before) && Seen(lines, n) == (m == n || Seen(before, n));
        assert m == n <==> IsReading(lines, k, n, s);
        if Seen(before, n) {
          var i: nat :| IsReading(before, i, n, s);
          assert IsReading(lines, i, n, s);
        }
    }
  }

  lemma SameReadings(lines: seq<Line>, n: string, s: nat)
    requires lines != []
    ensures forall i: nat | i < |lines| - 1 :: IsReading(lines[..|lines| - 1], i, n, s) <==> IsReading(lines, i, n, s)
  {
    forall i: nat | i < |lines| - 1
      ensures IsReading(lines[..|lines| - 1], i, n, s) <==> IsReading(lines, i, n, s)
    {
      ReadingBefore(lines, i, n, s);
    }
  }

  /** No two readings of the name are in the same sample. */
  lemma {:induction false} OnceExactly(lines: seq<Line>, n: string)
    ensures OncePerSample(lines, n)
            <==> forall i: nat, j: nat, s: nat :: i < j ==> !(IsReading(lines, i, n, s) && IsReading(lines, j, n, s))
  {
    if lines != [] {
      var k := |lines| - 1;
      var before := lines[..k];
      OnceExactly(before, n);
      SeenExactly(before, n, Sample(before));
      forall i: nat, s: nat | i < k
        ensures IsReading(before, i, n, s) <==> IsReading(lines, i, n, s)
      {
        ReadingBefore(lines, i, n, s);
      }
      if lines[k].Row? && lines[k].name == n {
        assert IsReading(lines, k, n, Sample(before));
        assert forall s: nat :: IsReading(lines, k, n, s) ==> s == Sample(before);
      }
    }
  }

  lemma {:induction false} UnseenIsNaN(lines: seq<Line>, n: string, first: bool)
    requires OpensWithHeader(lines) && lines != [] && !Seen(lines, n)
    ensures var t := TrackFile(lines, n, true, first); t.series != [] && t.series[|t.series| - 1] == NaN
    ensures var t := TrackFile(lines, n, true, first); |t.series| == 1 ==> t.last == 0
  {
    var before := lines[..|lines| - 1];
    if before != [] {
      HeaderOpensSeries(before, n, true, first);
      if lines[|lines| - 1].Row? {
        UnseenIsNaN(before, n, first);
      }
    }
  }

  lemma {:induction false} OnceNeverOverwrites(lines: seq<Line>, n: string)
    requires OpensWithHeader(lines) && OncePerSample(lines, n)
    ensures Overwritten(lines, n) == 0
  {
    if lines != [] {
      var before, line := lines[..|lines| - 1], lines[|lines| - 1];
      OnceNeverOverwrites(before, n);
      if line.Row? && line.name == n {
        UnseenIsNaN(before, n, true);
      }
    }
  }

  /** Overwriting a missing last slot adds its value to the sum. */
  lemma SumOfUpdate(s: seq<Slot>, v: real)
    requires |s| > 1 && s[|s| - 1] == NaN
    ensures SumVals(s[|s| - 1 := Val(v)][1..]) == SumVals(s[1..]) + v
  {
    var k := |s| - 1;
    assert s[1..] == s[1..k] + [NaN] && s[k := Val(v)][1..] == s[1..k] + [Val(v)];
    SumConcat(s[1..k], [NaN]);
    SumConcat(s[1..k], [Val(v)]);
  }

  lemma SumOfHeader(s: seq<Slot>)
    requires s != []
    ensures SumVals((s + [NaN])[1..]) == SumVals(s[1..])
  {
    assert (s + [NaN])[1..] == s[1..] + [NaN];
    SumConcat(s[1..], [NaN]);
  }

  /** The reference's total against the series. */
  ghost predicate TotalAgrees(t: Track, total: int) {
    if t.series == [] then total == 0 else total as real == SumVals(t.series[1..])
  }

  lemma OwnRowTotal(t: Track, m: Mext, n: string, v: int)
    requires TotalAgrees(t, StatsOf(m, n).total) && t.series != []
    requires |t.series| == m.col && t.last == Previous(m.previous, n) && t.series[m.col - 1] == NaN
    ensures TotalAgrees(TrackStep(t, Row(n, v), n, true, true), StatsOf(MextStep(m, Row(n, v)), n).total)
  {
    if m.col > 1 {
      SumOfUpdate(t.series, (v - t.last) as real);
    }
  }

  /** The reference's total of a name is the sum of its series after the first column. */
  lemma {:induction false} TotalIsSum(lines: seq<Line>, n: string)
    requires OpensWithHeader(lines) && OncePerSample(lines, n)
    ensures TotalAgrees(TrackFile(lines, n, true, true), StatsOf(MextOf(lines), n).total)
  {
    if lines != [] {
      var before, line := lines[..|lines| - 1], lines[|lines| - 1];
      TotalIsSum(before, n);
      var t := TrackFile(before, n, true, true);
      if before != [] {
        HeaderOpensSeries(before, n, true, true);
        if line.Header? {
          SumOfHeader(t.series);
        } else if line.name == n {
          RunBeside(before, n);
          UnseenIsNaN(before, n, true);
          OwnRowTotal(t, MextOf(before), n, line.value);
        }
      }
    }
  }

  /** For a name that occurs at most once per sample, the report's total is pt-mext's. */
  lemma TotalRefinesReference(f: File, n: string, classify: string -> bool)
    requires Proper(f) && n in RowNames(f.lines) && classify(n) && OncePerSample(f.lines, n)
    ensures var d, m := ParseSingle(f.base, f.lines, classify), MextOf(f.lines);
            Total(d, n) == if m.col < 2 then None else Some(StatsOf(m, n).total as real)
  {
    AloneIsAlone(f, classify);
    ParserRefinesReference(f, n, classify);
    TotalIsSum(f.lines, n);
  }

  // The other statistics of the reference.

  predicate IsDelta(m: Mext, n: string, d: int) {
    exists c: nat :: 2 <= c && c in Columns(m, n) && Columns(m, n)[c] == d
  }

  /** The statistics bound the deltas after the first column and are attained by them, except that a name absent from
      the second column is compared with 0 as well, and every name so for the greatest. */
  ghost predicate HasExtremes(m: Mext, n: string) {
    var s := StatsOf(m, n);
    && (forall c | c in Columns(m, n) :: 1 <= c <= m.col)
    && (forall c | 2 <= c && c in Columns(m, n) :: s.least <= Columns(m, n)[c] <= s.greatest)
    && (IsDelta(m, n, s.least) || (s.least == 0 && 2 !in Columns(m, n)))
    && (IsDelta(m, n, s.greatest) || s.greatest == 0)
    && s.greatest >= 0 && (2 !in Columns(m, n) ==> s.least <= 0)
  }

  lemma OwnRowExtremes(m: Mext, n: string, v: int)
    requires HasExtremes(m, n) && m.col > 0 && m.col !in Columns(m, n)
    ensures HasExtremes(MextStep(m, Row(n, v)), n)
  {
    var m', delta := MextStep(m, Row(n, v)), v - Previous(m.previous, n);
    assert Columns(m', n) == Columns(m, n)[m.col := delta];
    if m.col > 1 {
      assert m.col in Columns(m', n) && Columns(m', n)[m.col] == delta;
      assert IsDelta(m', n, delta);
      if IsDelta(m, n, StatsOf(m, n).least) {
        KeepsDelta(m, m', n, StatsOf(m, n).least);
      }
      if IsDelta(m, n, StatsOf(m, n).greatest) {
        KeepsDelta(m, m', n, StatsOf(m, n).greatest);
      }
    }
  }

  lemma KeepsDelta(m: Mext, m': Mext, n: string, d: int)
    requires IsDelta(m, n, d)
    requires forall c | c in Columns(m, n) :: c in Columns(m', n) && Columns(m', n)[c] == Columns(m, n)[c]
    ensures IsDelta(m', n, d)
  {
  }

  lemma OtherLineExtremes(m: Mext, n: string, line: Line)
    requires HasExtremes(m, n) && (line.Row? ==> line.name != n)
    ensures HasExtremes(MextStep(m, line), n)
  {
    var m' := MextStep(m, line);
    assert Columns(m', n) == Columns(m, n) && StatsOf(m', n) == StatsOf(m, n);
  }

  /** What the reference reports as least and greatest of a name that occurs at most once per sample. */
  lemma {:induction false} StatsAreExtremes(lines: seq<Line>, n: string)
    requires OpensWithHeader(lines) && OncePerSample(lines, n)
    ensures HasExtremes(MextOf(lines), n)
  {
    if lines != [] {
      var before, line := lines[..|lines| - 1], lines[|lines| - 1];
      StatsAreExtremes(before, n);
      if line.Row? && line.name == n {
        HeaderOpensSeries(before, n, true, true);
        NotYetInColumn(before, n);
        OwnRowExtremes(MextOf(before), n, line.value);
      } else {
        OtherLineExtremes(MextOf(before), n, line);
      }
    }
  }

  lemma {:induction false} NotYetInColumn(lines: seq<Line>, n: string)
    requires OpensWithHeader(lines) && lines != [] && !Seen(lines, n)
    ensures MextOf(lines).col > 0 && MextOf(lines).col !in Columns(MextOf(lines), n)
  {
    RunBeside(lines, n);
    var before := lines[..|lines| - 1];
    if lines[|lines| - 1].Header? {
      RunBeside(before, n);
    } else {
      NotYetInColumn(before, n);
    }
  }

  /** The average is the total over the number of the last column in which the name occurs, the first column
      included. */
  lemma {:induction false} AverageCountsFirstColumn(lines: seq<Line>, n: string)
    requires OpensWithHeader(lines)
    ensures var m := MextOf(lines);
            n in m.stats ==>
              exists c :: && 2 <= c <= m.col && c in Columns(m, n) && (forall x | x in Columns(m, n) :: x <= c)
                          && IsTruncated(StatsOf(m, n).average, StatsOf(m, n).total, c)
  {
    if lines != [] {
      var before, line := lines[..|lines| - 1], lines[|lines| - 1];
      AverageCountsFirstColumn(before, n);
      RunBeside(before, n);
      var m, m' := MextOf(before), MextOf(lines);
      if line.Row? && line.name == n {
        if m.col > 1 {
          QuotientTruncates(StatsOf(m', n).total, m.col);
          assert m.col in Columns(m', n) && StatsOf(m', n).average == Quotient(StatsOf(m', n).total, m.col);
        }
      } else {
        assert Columns(m', n) == Columns(m, n) && StatsOf(m', n) == StatsOf(m, n);
      }
    }
  }
}
