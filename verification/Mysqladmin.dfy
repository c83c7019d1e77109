/** The counter-series data and what parsing means, one line at a time.

    Sources: parse/mysqladmin.go and model/mysqladmin_merge.go.  Lines are tokenised: `Header` is a
    `| Variable_name | Value |` row, `Row` any other data row with its value already read as an integer.
    Floats are reals, NaN is a separate value, and integers are unbounded. */
module Mysqladmin {
  import opened Prelude

  datatype Slot = NaN | Val(v: real)
  datatype Line = Header | Row(name: string, value: int)

  datatype Data = Data(names: seq<string>, sampleCount: nat, timestamps: seq<real>,
                       deltas: map<string, seq<Slot>>, isCounter: map<string, bool>, boundaries: seq<nat>)

  /** A Go map lookup: the zero value for a missing key. */
  function Counts(m: map<string, bool>, n: string): bool {
    n in m && m[n]
  }

  function Series(m: map<string, seq<Slot>>, n: string): seq<Slot> {
    if n in m then m[n] else []
  }

  function Previous(m: map<string, int>, n: string): int {
    if n in m then m[n] else 0
  }

  function Gap(n: nat): seq<Slot> {
    seq(n, i => NaN)
  }

  /** Pads with NaN up to length `n`. */
  function Pad(s: seq<Slot>, n: nat): (r: seq<Slot>)
    ensures |s| <= n ==> |r| == n
    ensures s <= r
  {
    if |s| < n then s + Gap(n - |s|) else s
  }

  method PadSlots(slots: seq<Slot>, n: nat) returns (padded: seq<Slot>)
    ensures padded == Pad(slots, n)
  {
    padded := slots;
    while |padded| < n
      invariant Pad(padded, n) == Pad(slots, n) && |padded| <= |Pad(slots, n)|
      decreases n - |padded|
    {
      padded := padded + [NaN];
    }
  }

  /** The fields of the parser. */
  datatype Parser = Parser(base: real, col: nat, previous: map<string, int>, values: map<string, seq<Slot>>,
                           isCounter: map<string, bool>, boundaries: seq<nat>, order: seq<string>)

  function Start(base: real): Parser {
    Parser(base, 0, map[], map[], map[], [0], [])
  }

  /** A snapshot boundary: deltas do not span it. */
  function Reset(p: Parser, base: real): Parser {
    p.(previous := map[], base := base, boundaries := if p.col > 0 then p.boundaries + [p.col] else p.boundaries)
  }

  predicate AtBoundary(p: Parser, c: nat) {
    c in p.boundaries && c != 0
  }

  /** What a row stores in the current column. */
  function Output(p: Parser, counter: bool, n: string, v: int): Slot
    requires p.col > 0
  {
    if !counter then Val(v as real)
    else if p.col == 1 then Val(v as real)
    else if AtBoundary(p, p.col - 1) then NaN
    else Val((v - Previous(p.previous, n)) as real)
  }

  function Register(p: Parser, n: string, classify: string -> bool): Parser {
    if n in p.order then p
    else p.(order := p.order + [n], isCounter := p.isCounter[n := classify(n)])
  }

  /** The current column of a variable is appended, or overwritten when the name repeats. */
  function Put(slots: seq<Slot>, col: nat, out: Slot): seq<Slot>
    requires col > 0
  {
    if |slots| == col - 1 then slots + [out]
    else if |slots| == col then slots[col - 1 := out]
    else slots
  }

  function Step(p: Parser, line: Line, classify: string -> bool): Parser {
    match line
    case Header => p.(col := p.col + 1)
    case Row(n, v) =>
      if p.col == 0 then p else
      var q := Register(p, n, classify);
      var counter := Counts(q.isCounter, n);
      var out := Output(p, counter, n, v);
      q.(values := p.values[n := Put(Pad(Series(p.values, n), p.col - 1), p.col, out)],
         previous := if counter then p.previous[n := v] else p.previous)
  }

  function Parse(p: Parser, lines: seq<Line>, classify: string -> bool): Parser {
    if lines == [] then p
    else Step(Parse(p, lines[..|lines| - 1], classify), lines[|lines| - 1], classify)
  }

  /** One-second spacing from the last base. */
  function Ladder(base: real, n: nat): seq<real> {
    seq(n, i => base + i as real)
  }

  function Finish(p: Parser): Option<Data> {
    if p.col == 0 || p.order == [] then None
    else Some(Data(Sort(p.order, StringLess), p.col, Ladder(p.base, p.col),
                   map n | n in p.order :: Pad(Series(p.values, n), p.col), p.isCounter, p.boundaries))
  }

  function ParseSingle(base: real, lines: seq<Line>, classify: string -> bool): Option<Data> {
    Finish(Parse(Start(base), lines, classify))
  }

  // What the parser keeps.

  ghost predicate Valid(p: Parser, classify: string -> bool) {
    && (forall n | n in p.values :: |p.values[n]| <= p.col)
    && p.values.Keys == p.isCounter.Keys == Elements(p.order)
    && (forall n | n in p.isCounter :: p.isCounter[n] == classify(n))
    && (forall b | b in p.boundaries :: b <= p.col)
    && Distinct(p.order)
  }

  lemma PutUpdates(s: seq<Slot>, col: nat, out: Slot)
    requires 0 < col && |s| <= col
    ensures Put(Pad(s, col - 1), col, out) == Pad(s, col)[col - 1 := out]
  {
  }

  lemma RegisterKeepsValid(p: Parser, n: string, classify: string -> bool)
    requires Valid(p, classify)
    ensures var q := Register(p, n, classify);
            && q.isCounter.Keys == Elements(q.order) == Elements(p.order) + {n} && Distinct(q.order)
            && (forall m | m in q.isCounter :: q.isCounter[m] == classify(m))
  {
    assert n in p.order <==> n in Elements(p.order);
    assert Elements(p.order + [n]) == Elements(p.order) + {n};
  }

  lemma StepKeepsValid(p: Parser, line: Line, classify: string -> bool)
    requires Valid(p, classify)
    ensures Valid(Step(p, line, classify), classify)
  {
    if line.Row? && p.col > 0 {
      var n, q := line.name, Register(p, line.name, classify);
      RegisterKeepsValid(p, n, classify);
      PutUpdates(Series(p.values, n), p.col, Output(p, Counts(q.isCounter, n), n, line.value));
    }
  }

  lemma {:induction false} ParseKeepsValid(p: Parser, lines: seq<Line>, classify: string -> bool)
    requires Valid(p, classify)
    ensures Valid(Parse(p, lines, classify), classify)
  {
    if lines != [] {
      ParseKeepsValid(p, lines[..|lines| - 1], classify);
      StepKeepsValid(Parse(p, lines[..|lines| - 1], classify), lines[|lines| - 1], classify);
    }
  }

  // One name at a time: the reference meaning of a file for one variable.

  /** The series of a variable so far and the raw value last seen. */
  datatype Track = Track(series: seq<Slot>, last: int)

  /** `first` says whether the file opens the capture. */
  function TrackStep(t: Track, line: Line, n: string, counter: bool, first: bool): Track {
    match line
    case Header => t.(series := t.series + [NaN])
    case Row(m, v) =>
      if m != n || t.series == [] then t else
      var c := |t.series| - 1;
      var out := if !counter || (c == 0 && first) then Val(v as real)
                 else if c == 0 then NaN
                 else Val((v - t.last) as real);
      Track(t.series[c := out], v)
  }

  function TrackFile(lines: seq<Line>, n: string, counter: bool, first: bool): Track {
    if lines == [] then Track([], 0)
    else TrackStep(TrackFile(lines[..|lines| - 1], n, counter, first), lines[|lines| - 1], n, counter, first)
  }

  /** The series of `n` as it will come out, padded to the columns seen so far. */
  function View(p: Parser, n: string): seq<Slot> {
    Pad(Series(p.values, n), p.col)
  }

  ghost predicate OpensWithHeader(lines: seq<Line>) {
    lines != [] ==> lines[0].Header?
  }

  /** The parser is about to read a file: its first, or one after a reset. */
  ghost predicate Fresh(p: Parser) {
    && p.previous == map[]
    && if p.col == 0 then p.boundaries == [0] else p.col in p.boundaries && forall b | b in p.boundaries :: b <= p.col
  }

  /** How the fields of a parser `p` that started as `p0` relate to the reference. */
  ghost predicate Agrees(p0: Parser, p: Parser, t: Track, n: string, counter: bool) {
    && p.boundaries == p0.boundaries
    && p.col == p0.col + |t.series|
    && View(p, n) == View(p0, n) + t.series
    && (counter ==> Previous(p.previous, n) == t.last)
  }

  lemma HeaderAgrees(p0: Parser, p: Parser, t: Track, n: string, classify: string -> bool)
    requires Valid(p, classify) && Agrees(p0, p, t, n, classify(n))
    ensures Agrees(p0, Step(p, Header, classify), TrackStep(t, Header, n, classify(n), p0.col == 0), n, classify(n))
  {
    assert View(Step(p, Header, classify), n) == View(p, n) + [NaN];
  }

  lemma OtherRowAgrees(p0: Parser, p: Parser, t: Track, m: string, v: int, n: string, classify: string -> bool)
    requires Agrees(p0, p, t, n, classify(n)) && m != n
    ensures Agrees(p0, Step(p, Row(m, v), classify), TrackStep(t, Row(m, v), n, classify(n), p0.col == 0), n,
                   classify(n))
  {
    var q := Step(p, Row(m, v), classify);
    assert Series(q.values, n) == Series(p.values, n) && Previous(q.previous, n) == Previous(p.previous, n);
  }

  /** The reference and the parser choose the same value for the current column. */
  lemma OutputAgrees(p0: Parser, p: Parser, t: Track, v: int, n: string, counter: bool)
    requires Fresh(p0) && Agrees(p0, p, t, n, counter) && t.series != []
    ensures var c := |t.series| - 1;
            TrackStep(t, Row(n, v), n, counter, p0.col == 0) == Track(t.series[c := Output(p, counter, n, v)], v)
  {
  }

  lemma OwnRowSteps(p: Parser, v: int, n: string, classify: string -> bool)
    requires Valid(p, classify) && p.col > 0
    ensures var q := Step(p, Row(n, v), classify);
            && q.boundaries == p.boundaries && q.col == p.col
            && View(q, n) == View(p, n)[p.col - 1 := Output(p, classify(n), n, v)]
            && (classify(n) ==> Previous(q.previous, n) == v)
  {
    RegisterKeepsValid(p, n, classify);
    PutUpdates(Series(p.values, n), p.col, Output(p, classify(n), n, v));
  }

  lemma OwnRowAgrees(p0: Parser, p: Parser, t: Track, v: int, n: string, classify: string -> bool)
    requires Valid(p, classify) && Fresh(p0) && Agrees(p0, p, t, n, classify(n))
    requires p0.col > 0 ==> t.series != []
    requires |View(p0, n)| == p0.col
    ensures Agrees(p0, Step(p, Row(n, v), classify), TrackStep(t, Row(n, v), n, classify(n), p0.col == 0), n,
                   classify(n))
  {
    if p.col > 0 {
      OwnRowSteps(p, v, n, classify);
      OutputAgrees(p0, p, t, v, n, classify(n));
      UpdateLast(View(p0, n), t.series, Output(p, classify(n), n, v));
    }
  }

  lemma UpdateLast(before: seq<Slot>, series: seq<Slot>, out: Slot)
    requires series != []
    ensures (before + series)[|before| + |series| - 1 := out] == before + series[|series| - 1 := out]
  {
  }

  lemma {:induction false} HeaderOpensSeries(lines: seq<Line>, n: string, counter: bool, first: bool)
    requires lines != [] && lines[0].Header?
    ensures TrackFile(lines, n, counter, first).series != []
  {
    if |lines| > 1 {
      HeaderOpensSeries(lines[..|lines| - 1], n, counter, first);
    }
  }

  /** A file read by the parser adds, for every name, exactly the reference series of the file. */
  lemma {:induction false} FileTracks(p0: Parser, lines: seq<Line>, n: string, classify: string -> bool)
    requires Valid(p0, classify) && Fresh(p0)
    requires p0.col > 0 ==> OpensWithHeader(lines)
    ensures Agrees(p0, Parse(p0, lines, classify), TrackFile(lines, n, classify(n), p0.col == 0), n, classify(n))
  {
    if lines == [] {
    } else {
      var before, line := lines[..|lines| - 1], lines[|lines| - 1];
      FileTracks(p0, before, n, classify);
      ParseKeepsValid(p0, before, classify);
      var p, t := Parse(p0, before, classify), TrackFile(before, n, classify(n), p0.col == 0);
      match line
      case Header => HeaderAgrees(p0, p, t, n, classify);
      case Row(m, v) =>
        if m != n {
          OtherRowAgrees(p0, p, t, m, v, n, classify);
        } else {
          if p0.col > 0 {
            HeaderOpensSeries(before, n, classify(n), false);
          }
          OwnRowAgrees(p0, p, t, v, n, classify);
        }
    }
  }

  // What a gauge's series says of the file.

  /** The sample that a row after `lines` belongs to, counted from 1. */
  function Sample(lines: seq<Line>): nat {
    if lines == [] then 0 else Sample(lines[..|lines| - 1]) + if lines[|lines| - 1].Header? then 1 else 0
  }

  predicate IsReading(lines: seq<Line>, i: nat, n: string, sample: nat) {
    i < |lines| && lines[i].Row? && lines[i].name == n && Sample(lines[..i]) == sample
  }

  /** Line `i` is the last reading of `n` in the sample. */
  ghost predicate IsLastReading(lines: seq<Line>, i: nat, n: string, sample: nat) {
    IsReading(lines, i, n, sample) && forall j: nat | i < j :: !IsReading(lines, j, n, sample)
  }

  lemma ReadingBefore(lines: seq<Line>, j: nat, n: string, sample: nat)
    requires lines != [] && j < |lines| - 1
    ensures IsReading(lines, j, n, sample) <==> IsReading(lines[..|lines| - 1], j, n, sample)
  {
    assert lines[..|lines| - 1][..j] == lines[..j];
  }

  lemma {:induction false} GaugeFits(lines: seq<Line>, n: string, first: bool)
    ensures |TrackFile(lines, n, false, first).series| == Sample(lines)
  {
    if lines != [] {
      GaugeFits(lines[..|lines| - 1], n, first);
    }
  }

  /** Each slot of a gauge is the last reading in its sample... */
  lemma {:induction false} GaugeIsLastReading(lines: seq<Line>, n: string, first: bool, i: nat, sample: nat)
    requires sample > 0 && IsLastReading(lines, i, n, sample)
    ensures sample <= |TrackFile(lines, n, false, first).series|
    ensures TrackFile(lines, n, false, first).series[sample - 1] == Val(lines[i].value as real)
  {
    var k := |lines| - 1;
    var before := lines[..k];
    GaugeFits(before, n, first);
    if i < k {
      forall j: nat | i <= j
        ensures j < k ==> (IsReading(before, j, n, sample) <==> IsReading(lines, j, n, sample))
      {
        if j < k {
          ReadingBefore(lines, j, n, sample);
        }
      }
      GaugeIsLastReading(before, n, first, i, sample);
      assert !IsReading(lines, k, n, sample);
    }
  }

  /** ...and missing if and only if the sample has none. */
  lemma {:induction false} GaugeIsMissing(lines: seq<Line>, n: string, first: bool, sample: nat)
    requires 0 < sample <= Sample(lines)
    ensures |TrackFile(lines, n, false, first).series| == Sample(lines)
    ensures TrackFile(lines, n, false, first).series[sample - 1].NaN?
            <==> forall j: nat :: !IsReading(lines, j, n, sample)
  {
    var k := |lines| - 1;
    var before := lines[..k];
    GaugeFits(lines, n, first);
    GaugeFits(before, n, first);
    forall j: nat
      ensures j < k ==> (IsReading(before, j, n, sample) <==> IsReading(lines, j, n, sample))
    {
      if j < k {
        ReadingBefore(lines, j, n, sample);
      }
    }
    if sample <= Sample(before) {
      GaugeIsMissing(before, n, first, sample);
    } else {
      NothingReadYet(before, n, sample);
    }
    assert lines[k].Row? && lines[k].name == n && Sample(before) == sample <==> IsReading(lines, k, n, sample);
  }

  lemma {:induction false} NothingReadYet(lines: seq<Line>, n: string, sample: nat)
    requires Sample(lines) < sample
    ensures forall j: nat :: !IsReading(lines, j, n, sample)
  {
    forall j: nat
      ensures !IsReading(lines, j, n, sample)
    {
      if j < |lines| {
        SamplesGrow(lines, j);
      }
    }
  }

  lemma {:induction false} SamplesGrow(lines: seq<Line>, j: nat)
    requires j <= |lines|
    ensures Sample(lines[..j]) <= Sample(lines)
  {
    if j < |lines| {
      SamplesGrow(lines[..|lines| - 1], j);
      assert lines[..|lines| - 1][..j] == lines[..j];
    } else {
      assert lines[..j] == lines;
    }
  }
}
