/** Time stamps for the samples of `top -b`, whose headers carry only a time of day.  Source: parse/top.go.

    Times are UTC seconds.  Lines are tokenised: a process row carries its PID and CPU share if they parse. */
module TopClock {
  import opened Prelude

  const DAY := 86400
  const HALF_DAY := 43200

  datatype Line = Header(clock: nat) | PidHeader | Blank | Short
                | Process(pid: Option<int>, cpu: Option<real>, command: string)
  datatype ProcessSample = ProcessSample(time: int, pid: int, command: string, cpu: real)

  // The clock.

  function DayOf(t: int): int {
    t / DAY
  }

  function ClockOf(t: int): nat {
    t % DAY
  }

  /** The day of the first header, relative to that of the snapshot's start. */
  function FirstOffset(start: int, clock: nat): int {
    var candidate := DayOf(start) * DAY + clock;
    if start - candidate > HALF_DAY then 1 else if candidate - start > HALF_DAY then -1 else 0
  }

  function Offset(clocks: seq<nat>, start: int): int
    requires clocks != []
  {
    var n := |clocks| - 1;
    if n == 0 then FirstOffset(start, clocks[0])
    else Offset(clocks[..n], start) + if clocks[n] < clocks[n - 1] then 1 else 0
  }

  /** The time given to the last of the headers. */
  function TimeOf(clocks: seq<nat>, start: int): int
    requires clocks != []
  {
    (DayOf(start) + Offset(clocks, start)) * DAY + clocks[|clocks| - 1]
  }

  ghost predicate Recovered(reals: seq<int>, clocks: seq<nat>, start: int)
    requires |reals| == |clocks|
  {
    forall i | 0 <= i < |reals| :: TimeOf(clocks[..i + 1], start) == reals[i]
  }

  /** The headers' clocks show the real times. */
  ghost predicate Shows(clocks: seq<nat>, reals: seq<int>) {
    |clocks| == |reals| && forall i | 0 <= i < |reals| :: clocks[i] == reals[i] % 86400
  }

  predicate NearStart(first: int, start: int) {
    || -43200 < first - start < 43200
    || ((first - start == 43200 || start - first == 43200) && first / 86400 == start / 86400)
  }

  ghost predicate GapsUnderADay(reals: seq<int>) {
    forall i | 0 < i < |reals| :: 0 <= reals[i] - reals[i - 1] < 86400
  }

  /** The first header is within half a day of the start; at exactly half a day, on the same day. */
  lemma FirstIsRecoveredExactly(first: int, start: int)
    ensures TimeOf([ClockOf(first)], start) == first <==> NearStart(first, start)
  {
    assert start == DayOf(start) * DAY + ClockOf(start) && first == DayOf(first) * DAY + ClockOf(first);
    if NearStart(first, start) {
      assert -1 <= DayOf(first) - DayOf(start) <= 1;
    }
  }

  /** Given the time before, the next is right exactly when the gap is under a day and not negative. */
  lemma NextIsRecoveredExactly(clocks: seq<nat>, before: int, next: int, start: int)
    requires clocks != [] && clocks[|clocks| - 1] == ClockOf(before) && TimeOf(clocks, start) == before
    ensures TimeOf(clocks + [ClockOf(next)], start) == next <==> 0 <= next - before < DAY
  {
    assert (clocks + [ClockOf(next)])[..|clocks|] == clocks;
    assert before == DayOf(before) * DAY + ClockOf(before) && next == DayOf(next) * DAY + ClockOf(next);
    assert DayOf(start) + Offset(clocks, start) == DayOf(before);
  }

  lemma RecoveredSnoc(reals: seq<int>, clocks: seq<nat>, next: int, clock: nat, start: int)
    requires |reals| == |clocks|
    ensures Recovered(reals + [next], clocks + [clock], start)
            <==> Recovered(reals, clocks, start) && TimeOf(clocks + [clock], start) == next
  {
    var n := |reals|;
    var rs, cs := reals + [next], clocks + [clock];
    assert cs[..n + 1] == cs && rs[n] == next;
    assert forall i | 0 <= i < n :: cs[..i + 1] == clocks[..i + 1] && rs[i] == reals[i];
  }

  lemma LastRecovered(reals: seq<int>, clocks: seq<nat>, start: int)
    requires |reals| == |clocks| > 0 && Recovered(reals, clocks, start)
    ensures TimeOf(clocks, start) == reals[|reals| - 1]
  {
    assert clocks[..|reals| - 1 + 1] == clocks;
  }

  lemma GapsSnoc(reals: seq<int>, next: int)
    requires reals != []
    ensures GapsUnderADay(reals + [next]) <==> GapsUnderADay(reals) && 0 <= next - reals[|reals| - 1] < DAY
  {
    var all := reals + [next];
    assert forall i | 0 <= i < |reals| :: all[i] == reals[i];
    assert all[|reals|] == next;
  }

  /** All times are recovered if and only if the first header is near the start and no gap reaches a day. */
  lemma {:induction false} UnwrappingIsExact(reals: seq<int>, clocks: seq<nat>, start: int)
    requires reals != [] && Shows(clocks, reals)
    ensures Recovered(reals, clocks, start) <==> NearStart(reals[0], start) && GapsUnderADay(reals)
  {
    var n := |reals| - 1;
    var before, shown := reals[..n], clocks[..n];
    assert reals == before + [reals[n]] && clocks == shown + [ClockOf(reals[n])];
    RecoveredSnoc(before, shown, reals[n], ClockOf(reals[n]), start);
    if n == 0 {
      FirstIsRecoveredExactly(reals[0], start);
    } else {
      UnwrappingIsExact(before, shown, start);
      GapsSnoc(before, reals[n]);
      if Recovered(before, shown, start) {
        LastRecovered(before, shown, start);
        NextIsRecoveredExactly(shown, before[n - 1], reals[n], start);
      }
    }
  }

  /** A time is before the previous one only if the clock drops by more than a day, which no valid clock does. */
  lemma NeverBackwards(clocks: seq<nat>, clock: nat, start: int)
    requires clocks != []
    ensures TimeOf(clocks + [clock], start) < TimeOf(clocks, start) <==> clocks[|clocks| - 1] - clock > 86400
  {
    assert (clocks + [clock])[..|clocks|] == clocks;
  }

  // The samples.

  /** The process table of the current header is open after `lines`. */
  ghost predicate InTable(lines: seq<Line>) {
    exists h, p | 0 <= h < p < |lines| :: OpensTable(lines, h, p)
  }

  /** `h` is the last header, `p` the first table heading after it, and nothing has closed the table. */
  ghost predicate OpensTable(lines: seq<Line>, h: nat, p: nat)
    requires h < p < |lines|
  {
    && lines[h].Header? && lines[p].PidHeader?
    && (forall i | h < i < |lines| :: !lines[i].Header?)
    && (forall i | h < i < p :: !lines[i].PidHeader?)
    && (forall i | p < i < |lines| :: !lines[i].Blank? && !lines[i].Short?)
  }

  /** A header has been read, and no table heading since. */
  ghost predicate AwaitsTable(lines: seq<Line>) {
    exists h | 0 <= h < |lines| :: AwaitsSince(lines, h)
  }

  ghost predicate AwaitsSince(lines: seq<Line>, h: nat)
    requires h < |lines|
  {
    lines[h].Header? && forall i | h < i < |lines| :: !lines[i].Header? && !lines[i].PidHeader?
  }

  function Clocks(lines: seq<Line>): seq<nat> {
    if lines == [] then []
    else if lines[|lines| - 1].Header? then Clocks(lines[..|lines| - 1]) + [lines[|lines| - 1].clock]
    else Clocks(lines[..|lines| - 1])
  }

  predicate Readable(line: Line) {
    line.Process? && line.pid.Some? && line.cpu.Some?
  }

  /** The rows of open tables, each with the time of its header. */
  ghost function Samples(lines: seq<Line>, start: int): seq<ProcessSample> {
    if lines == [] then [] else
    var before, line := lines[..|lines| - 1], lines[|lines| - 1];
    if Readable(line) && InTable(before) && Clocks(before) != [] then
      Samples(before, start) +
      [ProcessSample(TimeOf(Clocks(before), start), line.pid.value, line.command, line.cpu.value)]
    else Samples(before, start)
  }

  /** Row `i` was read: it is of an open table, and has the time of its header. */
  ghost predicate IsSampleOf(x: ProcessSample, lines: seq<Line>, i: nat, start: int) {
    && i < |lines| && lines[i] == Process(Some(x.pid), Some(x.cpu), x.command) && InTable(lines[..i])
    && Clocks(lines[..i]) != [] && x.time == TimeOf(Clocks(lines[..i]), start)
  }

  lemma SampleOfBefore(x: ProcessSample, lines: seq<Line>, i: nat, start: int)
    requires lines != [] && i < |lines| - 1
    ensures IsSampleOf(x, lines, i, start) <==> IsSampleOf(x, lines[..|lines| - 1], i, start)
  {
    assert lines[..|lines| - 1][..i] == lines[..i];
  }

  lemma LastSample(x: ProcessSample, lines: seq<Line>, start: int)
    requires lines != []
    ensures x in Samples(lines, start)
            <==> x in Samples(lines[..|lines| - 1], start) || IsSampleOf(x, lines, |lines| - 1, start)
  {
  }

  /** Which samples there are: those of the rows of open tables whose PID and CPU share could be read. */
  lemma {:induction false} SamplesExactly(lines: seq<Line>, start: int, x: ProcessSample)
    ensures x in Samples(lines, start) <==> exists i: nat :: IsSampleOf(x, lines, i, start)
  {
    if lines != [] {
      var k := |lines| - 1;
      SamplesExactly(lines[..k], start, x);
      LastSample(x, lines, start);
      forall i: nat | i < k
        ensures IsSampleOf(x, lines, i, start) <==> IsSampleOf(x, lines[..k], i, start)
      {
        SampleOfBefore(x, lines, i, start);
      }
    }
  }

  datatype State = AwaitHeader | AwaitPidHeader | InProcRows

  /** The parser's state says where in a sample it is. */
  ghost predicate Tracks(state: State, lines: seq<Line>) {
    && (state.AwaitPidHeader? <==> AwaitsTable(lines))
    && (state.InProcRows? <==> InTable(lines))
  }

  function Next(state: State, line: Line): State {
    match line
    case Header(_) => AwaitPidHeader
    case PidHeader => if state.AwaitPidHeader? then InProcRows else state
    case Process(_, _, _) => state
    case _ => if state.InProcRows? then AwaitHeader else state
  }

  lemma HeaderTracks(lines: seq<Line>, clock: nat)
    ensures AwaitsTable(lines + [Header(clock)])
  {
    var all := lines + [Header(clock)];
    assert AwaitsSince(all, |lines|);
  }

  lemma AwaitsNext(lines: seq<Line>, line: Line)
    requires !line.Header?
    ensures AwaitsTable(lines + [line]) <==> AwaitsTable(lines) && !line.PidHeader?
  {
    var all := lines + [line];
    assert forall i | 0 <= i < |lines| :: all[i] == lines[i];
    if AwaitsTable(all) {
      var h :| 0 <= h < |all| && AwaitsSince(all, h);
      assert all[|lines|] == line && AwaitsSince(lines, h);
    }
    if AwaitsTable(lines) && !line.PidHeader? {
      var h :| 0 <= h < |lines| && AwaitsSince(lines, h);
      assert AwaitsSince(all, h);
    }
  }

  lemma InTableNext(lines: seq<Line>, line: Line)
    requires line.PidHeader? || line.Process?
    ensures InTable(lines + [line]) <==> InTable(lines) || (line.PidHeader? && AwaitsTable(lines))
  {
    var all := lines + [line];
    assert forall i | 0 <= i < |lines| :: all[i] == lines[i];
    if InTable(all) {
      var h: nat, p: nat :| h < p < |all| && OpensTable(all, h, p);
      if p < |lines| {
        assert OpensTable(lines, h, p);
      } else {
        assert all[h].Header? && all[|lines|] == line;
        assert AwaitsSince(lines, h);
      }
    }
    if InTable(lines) {
      var h: nat, p: nat :| h < p < |lines| && OpensTable(lines, h, p);
      assert OpensTable(all, h, p);
    }
    if line.PidHeader? && AwaitsTable(lines) {
      var h :| 0 <= h < |lines| && AwaitsSince(lines, h);
      assert OpensTable(all, h, |lines|);
    }
  }

  lemma HeaderClosesTable(lines: seq<Line>, line: Line)
    requires line.Header? || line.Blank? || line.Short?
    ensures !InTable(lines + [line])
  {
    var all := lines + [line];
    assert all[|lines|] == line;
    forall h: nat, p: nat | h < p < |all|
      ensures !OpensTable(all, h, p)
    {
      assert p == |lines| || p < |lines| < |all|;
    }
  }

  lemma NextTracks(state: State, lines: seq<Line>, line: Line)
    requires Tracks(state, lines)
    ensures Tracks(Next(state, line), lines + [line])
  {
    match line
    case Header(clock) =>
      HeaderTracks(lines, clock);
      HeaderClosesTable(lines, line);
    case PidHeader =>
      AwaitsNext(lines, line);
      InTableNext(lines, line);
    case Process(_, _, _) =>
      AwaitsNext(lines, line);
      InTableNext(lines, line);
    case _ =>
      AwaitsNext(lines, line);
      HeaderClosesTable(lines, line);
  }

  /** The clock variables after the headers `clocks`. */
  ghost predicate IsClock(clocks: seq<nat>, start: int, lastHeaderClock: int, dayOffset: int, currentTime: int) {
    if clocks == [] then lastHeaderClock == -1 && dayOffset == 0
    else && lastHeaderClock == clocks[|clocks| - 1] && dayOffset == Offset(clocks, start)
         && currentTime == TimeOf(clocks, start)
  }

  method ReadHeader(headerClock: nat, snapshotStart: int, lastHeaderClock: int, dayOffset: int, ghost clocks: seq<nat>,
                    ghost currentTime: int)
    returns (last: int, offset: int, time: int)
    requires IsClock(clocks, snapshotStart, lastHeaderClock, dayOffset, currentTime)
    ensures IsClock(clocks + [headerClock], snapshotStart, last, offset, time)
  {
    assert (clocks + [headerClock])[..|clocks|] == clocks;
    offset := dayOffset;
    if lastHeaderClock >= 0 && headerClock < lastHeaderClock {
      offset := offset + 1;
    } else if lastHeaderClock < 0 {
      var candidate := snapshotStart / DAY * DAY + headerClock;
      if snapshotStart - candidate > HALF_DAY {
        offset := 1;
      } else if candidate - snapshotStart > HALF_DAY {
        offset := -1;
      }
    }
    last := headerClock;
    time := (snapshotStart / DAY + offset) * DAY + headerClock;
  }

  lemma ClocksSnoc(lines: seq<Line>, line: Line)
    ensures Clocks(lines + [line]) == if line.Header? then Clocks(lines) + [line.clock] else Clocks(lines)
  {
    assert (lines + [line])[..|lines|] == lines;
  }

  method ReadRow(line: Line, state: State, currentTime: int, ghost lastHeaderClock: int, ghost dayOffset: int,
                 samples: seq<ProcessSample>, ghost lines: seq<Line>, ghost start: int)
    returns (out: seq<ProcessSample>)
    requires samples == Samples(lines, start) && (state.InProcRows? <==> InTable(lines))
    requires IsClock(Clocks(lines), start, lastHeaderClock, dayOffset, currentTime)
    ensures out == Samples(lines + [line], start)
  {
    assert (lines + [line])[..|lines|] == lines;
    out := samples;
    if Readable(line) && state.InProcRows? {
      TableHasClock(lines);
      out := out + [ProcessSample(currentTime, line.pid.value, line.command, line.cpu.value)];
    }
  }

  /** For every sequence of lines: which rows become samples, and with what time. */
  method ReadSamples(lines: seq<Line>, snapshotStart: int) returns (samples: seq<ProcessSample>)
    ensures samples == Samples(lines, snapshotStart)
  {
    var currentTime, lastHeaderClock, dayOffset, state := snapshotStart, -1, 0, AwaitHeader;
    samples := [];
    for i := 0 to |lines|
      invariant samples == Samples(lines[..i], snapshotStart) && Tracks(state, lines[..i])
      invariant IsClock(Clocks(lines[..i]), snapshotStart, lastHeaderClock, dayOffset, currentTime)
    {
      ghost var before := lines[..i];
      assert lines[..i + 1] == before + [lines[i]];
      NextTracks(state, before, lines[i]);
      ClocksSnoc(before, lines[i]);
      samples := ReadRow(lines[i], state, currentTime, lastHeaderClock, dayOffset, samples, before, snapshotStart);
      if lines[i].Header? {
        lastHeaderClock, dayOffset, currentTime :=
          ReadHeader(lines[i].clock, snapshotStart, lastHeaderClock, dayOffset, Clocks(before), currentTime);
      }
      state := Next(state, lines[i]);
    }
    assert lines[..|lines|] == lines;
  }

  /** A table is only open after a header. */
  lemma TableHasClock(lines: seq<Line>)
    requires InTable(lines)
    ensures Clocks(lines) != []
  {
    var h: nat, p: nat :| h < p < |lines| && OpensTable(lines, h, p);
    HasClock(lines, h);
  }

  lemma {:induction false} HasClock(lines: seq<Line>, h: nat)
    requires h < |lines| && lines[h].Header?
    ensures Clocks(lines) != []
  {
    if h < |lines| - 1 {
      HasClock(lines[..|lines| - 1], h);
    }
  }

  ghost predicate Ascends(samples: seq<ProcessSample>) {
    forall i, j | 0 <= i < j < |samples| :: samples[i].time <= samples[j].time
  }

  /** No sample is after the current time. */
  ghost predicate NotAfter(samples: seq<ProcessSample>, clocks: seq<nat>, start: int) {
    samples != [] ==> clocks != [] && forall i | 0 <= i < |samples| :: samples[i].time <= TimeOf(clocks, start)
  }

  /** With valid clocks, the samples come out in the order of time. */
  lemma {:induction false} SamplesAscend(lines: seq<Line>, start: int)
    requires forall i | 0 <= i < |lines| && lines[i].Header? :: lines[i].clock < 86400
    ensures Ascends(Samples(lines, start)) && NotAfter(Samples(lines, start), Clocks(lines), start)
    ensures forall i | 0 <= i < |Clocks(lines)| :: Clocks(lines)[i] < 86400
  {
    if lines != [] {
      var before, line := lines[..|lines| - 1], lines[|lines| - 1];
      SamplesAscend(before, start);
      if line.Header? && Clocks(before) != [] {
        NeverBackwards(Clocks(before), line.clock, start);
      }
    }
  }
}
