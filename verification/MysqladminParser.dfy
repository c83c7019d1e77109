/** The parser object: its fields are updated line by line, and one object may read several files.

    Source: parse/mysqladmin.go. */
module MysqladminParser {
  import opened Prelude
  import opened Mysqladmin

  class MysqladminParser {
    const classify: string -> bool // counter or gauge; the table behind it is not modelled
    var timestampBase: real
    var col: nat
    var previous: map<string, int>
    var values: map<string, seq<Slot>>
    var isCounter: map<string, bool>
    var boundaries: seq<nat>
    var nameOrder: seq<string>

    ghost function State(): Parser
      reads this
    {
      Parser(timestampBase, col, previous, values, isCounter, boundaries, nameOrder)
    }

    constructor (base: real, classify: string -> bool)
      ensures State() == Start(base) && this.classify == classify
    {
      this.classify := classify;
      timestampBase, col := base, 0;
      previous, values, isCounter := map[], map[], map[];
      boundaries, nameOrder := [0], [];
    }

    method ResetForNewSnapshot(newSnapshotStart: real)
      modifies this
      ensures State() == Reset(old(State()), newSnapshotStart)
    {
      previous := map[];
      timestampBase := newSnapshotStart;
      if col > 0 {
        boundaries := boundaries + [col];
      }
    }

    method AtBoundaryFor(colZeroBased: nat) returns (found: bool)
      ensures found <==> colZeroBased != 0 && colZeroBased in boundaries
    {
      for i := 0 to |boundaries|
        invariant forall j | 0 <= j < i :: boundaries[j] != colZeroBased || colZeroBased == 0
      {
        if boundaries[i] == colZeroBased && colZeroBased != 0 {
          return true;
        }
      }
      found := false;
    }

    /** Registers a name on first sight. */
    method Register(name: string)
      modifies `nameOrder, `isCounter
      ensures State() == Mysqladmin.Register(old(State()), name, classify)
    {
      if name !in nameOrder {
        nameOrder := nameOrder + [name];
        isCounter := isCounter[name := classify(name)];
      }
    }

    /** The value for the current column; remembers the raw value of a counter. */
    method NextValue(name: string, v: int) returns (out: Slot)
      requires col > 0
      modifies `previous
      ensures out == Output(old(State()), Counts(isCounter, name), name, v)
      ensures previous == if Counts(isCounter, name) then old(previous)[name := v] else old(previous)
    {
      if name in isCounter && isCounter[name] {
        var prev := if name in previous then previous[name] else 0;
        var atBoundary := AtBoundaryFor(col - 1);
        if col == 1 || atBoundary {
          out := if col == 1 then Val(v as real) else NaN;
        } else {
          out := Val((v - prev) as real);
        }
        previous := previous[name := v];
      } else {
        out := Val(v as real);
      }
    }

    /** The row's value goes into the current column, in place of one there already. */
    method PutValue(name: string, out: Slot)
      requires col > 0
      modifies `values
      ensures values == old(values)[name := Put(Pad(Series(old(values), name), col - 1), col, out)]
    {
      var slots := if name in values then values[name] else [];
      slots := PadSlots(slots, col - 1);
      if |slots| == col - 1 {
        slots := slots + [out];
      } else if |slots| == col {
        slots := slots[col - 1 := out];
      }
      values := values[name := slots];
    }

    /** One data row. */
    method ReadRow(name: string, v: int)
      requires col > 0
      modifies this
      ensures State() == Step(old(State()), Row(name, v), classify)
    {
      Register(name);
      var out := NextValue(name, v);
      PutValue(name, out);
    }

    method ParseOneFile(lines: seq<Line>)
      modifies this
      ensures State() == Parse(old(State()), lines, classify)
    {
      for i := 0 to |lines|
        invariant State() == Parse(old(State()), lines[..i], classify)
      {
        assert lines[..i + 1][..i] == lines[..i];
        match lines[i]
        case Header => col := col + 1;
        case Row(name, v) =>
          if col > 0 {
            ReadRow(name, v);
          }
      }
      assert lines[..|lines|] == lines;
    }

    /** Pads every series to the number of columns. */
    method PadValues()
      requires values.Keys == Elements(nameOrder)
      modifies `values
      ensures values.Keys == old(values.Keys)
      ensures forall n | n in values :: values[n] == Pad(old(values[n]), col)
    {
      for i := 0 to |nameOrder|
        invariant values.Keys == old(values.Keys)
        invariant forall n | n in values ::
                    values[n] == if n in nameOrder[..i] then Pad(old(values[n]), col) else old(values[n])
      {
        assert nameOrder[..i + 1] == nameOrder[..i] + [nameOrder[i]];
        assert nameOrder[i] in Elements(nameOrder);
        var vs := PadSlots(values[nameOrder[i]], col);
        values := values[nameOrder[i] := vs];
      }
      assert nameOrder[..|nameOrder|] == nameOrder;
      forall n | n in values
        ensures n in nameOrder
      {
        assert n in Elements(nameOrder);
      }
    }

    method Finish() returns (data: Option<Data>)
      requires Valid(State(), classify)
      modifies `values
      ensures data == Mysqladmin.Finish(old(State()))
    {
      if col == 0 || |nameOrder| == 0 {
        return None;
      }
      PadValues();
      data := Some(Data(Sort(nameOrder, StringLess), col, Ladder(timestampBase, col), values, isCounter, boundaries));
      assert values == map n | n in nameOrder :: Pad(Series(old(values), n), col) by {
        assert forall n :: n in nameOrder <==> n in Elements(nameOrder);
      }
    }
  }
}
