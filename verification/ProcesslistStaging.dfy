/** Queries merged row by row, then file by file, then across snapshots: the same as one merge of all sightings.

    Sources: parse/processlist.go and render/concat.go.  A file is read as its samples and their completed rows;
    the number fields are what the number parser returned.  Case folding is that of ASCII. */
module ProcesslistStaging {
  import opened Prelude
  import opened Processlist

  /** A digest is never empty. */
  type Digest = s: string | s != "" witness "q"

  /** The normalised text and its digest. */
  datatype Shape = Shape(fingerprint: Digest, snippet: string)
  datatype Row = Row(user: string, db: string, command: string, state: string, info: string, shape: Shape,
                     timeMs: Option<real>, seconds: Option<real>, examined: Option<real>, sent: Option<real>)
  datatype Sample = Sample(t: int, rows: seq<Row>)
  datatype ProcesslistData = ProcesslistData(sampleCount: nat, queries: seq<Query>)

  function LowerChar(c: char): char {
    if 'A' <= c <= 'Z' then c - 'A' + 'a' else c
  }

  predicate EqualFold(s: string, t: string) {
    |s| == |t| && forall i | 0 <= i < |s| :: LowerChar(s[i]) == LowerChar(t[i])
  }

  function EmptyAsOther(s: string): string {
    if s == "" then "Other" else s
  }

  function NullOrEmptyAsOther(s: string): string {
    if s == "" || EqualFold(s, "NULL") then "Other" else s
  }

  predicate Eligible(r: Row) {
    && !(r.command == "" || EqualFold(r.command, "Sleep") || EqualFold(r.command, "Daemon"))
    && r.info != "" && !EqualFold(r.info, "NULL")
  }

  /** The number parser refuses negative values. */
  function NonNegative(v: Option<real>): Option<real> {
    if v.Some? && v.value >= 0.0 then v else None
  }

  function OrZero(v: Option<real>): real {
    if v.Some? then v.value else 0.0
  }

  /** The seed of a group; `Time_ms` takes precedence over `Time`. */
  function Sighting(r: Row, t: int): Query {
    var ms, s := NonNegative(r.timeMs), NonNegative(r.seconds);
    var examined, sent := NonNegative(r.examined), NonNegative(r.sent);
    Query(r.shape.fingerprint, r.shape.snippet, t, t, 1,
          Age(ms.Some? || s.Some?, if ms.Some? then ms.value else OrZero(s) * 1000.0,
              Context(EmptyAsOther(r.user), NullOrEmptyAsOther(r.db), r.command, NullOrEmptyAsOther(r.state))),
          Rows(examined.Some?, OrZero(examined)), Rows(sent.Some?, OrZero(sent)))
  }

  /** The word in lower and in upper case; the letters may be mixed. */
  predicate Spells(s: string, lower: string, upper: string)
    requires |lower| == |upper|
  {
    |s| == |lower| && forall i | 0 <= i < |s| :: s[i] == lower[i] || s[i] == upper[i]
  }

  lemma FoldsExactly(s: string)
    ensures EqualFold(s, "Sleep") <==> Spells(s, "sleep", "SLEEP")
    ensures EqualFold(s, "Daemon") <==> Spells(s, "daemon", "DAEMON")
    ensures EqualFold(s, "NULL") <==> Spells(s, "null", "NULL")
  {
  }

  /** Which rows are sightings: those with a command that is neither asleep nor a daemon, and with a text. */
  lemma EligibleExactly(r: Row)
    ensures Eligible(r) <==> && r.command != "" && r.info != "" && !Spells(r.info, "null", "NULL")
                             && !Spells(r.command, "sleep", "SLEEP") && !Spells(r.command, "daemon", "DAEMON")
  {
    FoldsExactly(r.command);
    FoldsExactly(r.info);
  }

  predicate Valid(v: Option<real>) {
    v.Some? && v.value >= 0.0
  }

  /** What a sighting takes from its row; milliseconds come before seconds. */
  lemma SightingFields(r: Row, t: int)
    ensures var q := Sighting(r, t);
            && q.fingerprint == r.shape.fingerprint && q.snippet == r.shape.snippet
            && q.firstSeen == q.lastSeen == t && q.seenSamples == 1
            && (Valid(r.timeMs) ==> q.age.has && q.age.ms == r.timeMs.value)
            && (!Valid(r.timeMs) && Valid(r.seconds) ==> q.age.has && q.age.ms == 1000.0 * r.seconds.value)
            && (!Valid(r.timeMs) && !Valid(r.seconds) ==> !q.age.has && q.age.ms == 0.0)
            && q.examined == (if Valid(r.examined) then Rows(true, r.examined.value) else Rows(false, 0.0))
            && q.sent == (if Valid(r.sent) then Rows(true, r.sent.value) else Rows(false, 0.0))
    ensures var c := Sighting(r, t).age.context;
            && c.user == (if r.user == "" then "Other" else r.user) && c.command == r.command
            && c.db == (if r.db == "" || Spells(r.db, "null", "NULL") then "Other" else r.db)
            && c.state == (if r.state == "" || Spells(r.state, "null", "NULL") then "Other" else r.state)
  {
    FoldsExactly(r.db);
    FoldsExactly(r.state);
  }

  function RowSightings(rows: seq<Row>, t: int): seq<Query> {
    if rows == [] then []
    else RowSightings(rows[..|rows| - 1], t) +
         if Eligible(rows[|rows| - 1]) then [Sighting(rows[|rows| - 1], t)] else []
  }

  function Sightings(file: seq<Sample>): seq<Query> {
    if file == [] then []
    else Sightings(file[..|file| - 1]) + RowSightings(file[|file| - 1].rows, file[|file| - 1].t)
  }

  ghost predicate Proper(qs: seq<Query>) {
    forall i | 0 <= i < |qs| :: SoundQuery(qs[i]) && qs[i].fingerprint != ""
  }

  lemma {:induction false} RowSightingsProper(rows: seq<Row>, t: int)
    ensures Proper(RowSightings(rows, t))
  {
    if rows != [] {
      RowSightingsProper(rows[..|rows| - 1], t);
    }
  }

  lemma {:induction false} SightingsProper(file: seq<Sample>)
    ensures Proper(Sightings(file))
  {
    if file != [] {
      SightingsProper(file[..|file| - 1]);
      RowSightingsProper(file[|file| - 1].rows, file[|file| - 1].t);
    }
  }

  // Merging tables.

  function JoinAt(s: map<string, Query>, t: map<string, Query>, f: string): Query
    requires f in s || f in t
  {
    if f !in t then s[f] else if f !in s then t[f] else Absorb(s[f], t[f])
  }

  function Join(s: map<string, Query>, t: map<string, Query>): map<string, Query> {
    map f | f in s.Keys + t.Keys :: JoinAt(s, t, f)
  }

  lemma JoinAdd(s: map<string, Query>, t: map<string, Query>, q: Query)
    requires SoundTable(s) && SoundTable(t) && SoundQuery(q)
    ensures Add(Join(s, t), q) == Join(s, Add(t, q))
  {
    var f := q.fingerprint;
    if f != "" && f in s && f in t {
      AbsorbAssociates(s[f], t[f], q);
    }
  }

  /** Merging two lists is merging their tables. */
  lemma {:induction false} TableConcat(a: seq<Query>, b: seq<Query>)
    requires AllSound(a) && AllSound(b)
    ensures Table(a + b) == Join(Table(a), Table(b))
  {
    if b == [] {
      assert a + b == a;
      assert Join(Table(a), map[]) == Table(a);
    } else {
      var before, q := b[..|b| - 1], b[|b| - 1];
      TableConcat(a, before);
      assert (a + b)[..|a + b| - 1] == a + before;
      TableIsSound(a);
      TableIsSound(before);
      JoinAdd(Table(a), Table(before), q);
    }
  }

  ghost predicate DistinctKeys(qs: seq<Query>) {
    && (forall i | 0 <= i < |qs| :: qs[i].fingerprint != "")
    && forall i, j | 0 <= i < j < |qs| :: qs[i].fingerprint != qs[j].fingerprint
  }

  lemma {:induction false} TableOfDistinct(qs: seq<Query>)
    requires DistinctKeys(qs)
    ensures forall f | f in Table(qs) :: exists i | 0 <= i < |qs| :: qs[i].fingerprint == f && Table(qs)[f] == qs[i]
    ensures forall i | 0 <= i < |qs| :: qs[i].fingerprint in Table(qs) && Table(qs)[qs[i].fingerprint] == qs[i]
  {
    if qs != [] {
      TableOfDistinct(qs[..|qs| - 1]);
    }
  }

  lemma DistinctValues(t: map<string, Query>, l: seq<Query>)
    requires Keyed(t) && Distinct(l) && Elements(l) == t.Values
    ensures DistinctKeys(l) && (SoundTable(t) ==> AllSound(l))
  {
    forall i | 0 <= i < |l|
      ensures l[i].fingerprint in t && t[l[i].fingerprint] == l[i]
    {
      assert l[i] in Elements(l);
    }
  }

  /** The table is the same after its groups have been listed and merged again. */
  lemma TableOfList(t: map<string, Query>, l: seq<Query>)
    requires Keyed(t) && Distinct(l) && Elements(l) == t.Values
    ensures Table(l) == t && (SoundTable(t) ==> AllSound(l))
  {
    DistinctValues(t, l);
    TableOfDistinct(l);
    forall f | f in t
      ensures f in Table(l) && Table(l)[f] == t[f]
    {
      assert t[f] in t.Values && t[f] in Elements(l);
    }
    forall f | f in Table(l)
      ensures f in t
    {
      var i :| 0 <= i < |l| && l[i].fingerprint == f;
      assert l[i] in Elements(l);
    }
  }

  lemma SortedIsDistinct(t: map<string, Query>, l: seq<Query>)
    requires Keyed(t) && Lists(t, l)
    ensures Distinct(l)
  {
    BeforeIsOrder(t);
    assert forall i, j | 0 <= i < j < |l| :: Before(l[i], l[j]) && !Before(l[i], l[i]);
  }

  // One row.

  /** Merging a group and a sighting of it, as lists of one, gives a list of one. */
  lemma PairMerges(current: Query, q: Query, merged: seq<Query>)
    requires current.fingerprint == q.fingerprint != "" && Lists(Table([current, q]), merged)
    ensures merged == [Absorb(current, q)]
  {
    var both := Absorb(current, q);
    assert [current, q][..1] == [current] && [current][..0] == [];
    assert Table([current]) == map[q.fingerprint := current];
    var t := map[q.fingerprint := both];
    assert Table([current, q]) == t;
    assert t[q.fingerprint] == both;
    assert t.Values == {both};
    ListOfOne(merged, both);
  }

  lemma ListOfOne(s: seq<Query>, q: Query)
    requires Sorted(s, Before) && Elements(s) == {q}
    ensures s == [q]
  {
    assert q in Elements(s);
    assert s[0] in Elements(s);
    if |s| > 1 {
      assert s[0] in Elements(s) && s[1] in Elements(s);
      StringTotal(q.fingerprint, q.fingerprint);
    }
  }

  method FlushRow(r: Row, t: int, observed: map<string, Query>) returns (out: map<string, Query>)
    requires Keyed(observed)
    ensures out == if Eligible(r) then Add(observed, Sighting(r, t)) else observed
  {
    out := observed;
    if Eligible(r) {
      var q := Sighting(r, t);
      if q.fingerprint in observed {
        assert Flatten([[observed[q.fingerprint]], [q]]) == [observed[q.fingerprint], q] by {
          FlattenPair(observed[q.fingerprint], q);
        }
        var merged := MergeAllObservedProcesslistQueries([[observed[q.fingerprint]], [q]]);
        PairMerges(observed[q.fingerprint], q, merged);
        if |merged| == 1 {
          out := out[q.fingerprint := merged[0]];
        }
      } else {
        out := out[q.fingerprint := q];
      }
    }
  }

  lemma FlattenPair(a: Query, b: Query)
    ensures Flatten([[a], [b]]) == [a, b]
  {
    assert [[a], [b]][..1] == [[a]] && [[a]][..0] == [];
    assert Flatten([[a]]) == Flatten([]) + [a];
  }

  // One file.

  method CollectRows(rows: seq<Row>, t: int, ghost before: seq<Query>, observed: map<string, Query>)
    returns (out: map<string, Query>)
    requires observed == Table(before)
    ensures out == Table(before + RowSightings(rows, t))
  {
    out := observed;
    assert before + [] == before;
    for i := 0 to |rows|
      invariant out == Table(before + RowSightings(rows[..i], t))
    {
      assert rows[..i + 1][..i] == rows[..i];
      ghost var qs := before + RowSightings(rows[..i], t);
      TableIsKeyed(qs);
      out := FlushRow(rows[i], t, out);
      OneMoreRow(before, rows[..i], rows[i], t);
    }
    assert rows[..|rows|] == rows;
  }

  lemma OneMoreRow(before: seq<Query>, rows: seq<Row>, r: Row, t: int)
    ensures Table(before + RowSightings(rows + [r], t))
            == var table := Table(before + RowSightings(rows, t));
               if Eligible(r) then Add(table, Sighting(r, t)) else table
  {
    assert (rows + [r])[..|rows|] == rows;
    var qs := before + RowSightings(rows, t);
    var q := Sighting(r, t);
    if Eligible(r) {
      assert before + RowSightings(rows + [r], t) == qs + [q];
      assert (qs + [q])[..|qs|] == qs;
    } else {
      assert before + RowSightings(rows + [r], t) == qs;
    }
  }

  /** What a file parses to. */
  ghost predicate IsParsed(file: seq<Sample>, d: Option<ProcesslistData>) {
    if file == [] then d.None?
    else d.Some? && d.value.sampleCount == |file| && Lists(Table(Sightings(file)), d.value.queries)
  }

  method CollectQueries(file: seq<Sample>) returns (d: Option<ProcesslistData>)
    ensures IsParsed(file, d)
  {
    var observed: map<string, Query> := map[];
    for i := 0 to |file|
      invariant observed == Table(Sightings(file[..i]))
    {
      assert file[..i + 1][..i] == file[..i];
      observed := CollectRows(file[i].rows, file[i].t, Sightings(file[..i]), observed);
    }
    assert file[..|file|] == file;
    if |file| == 0 {
      return None;
    }
    TableIsKeyed(Sightings(file));
    var listed := AnyOrder(observed.Values);
    TableOfList(observed, listed);
    FlattenOne(listed);
    var queries := MergeAllObservedProcesslistQueries([listed]);
    d := Some(ProcesslistData(|file|, queries));
  }

  lemma FlattenOne(l: seq<Query>)
    ensures Flatten([l]) == l
  {
    assert [l][..0] == [];
    assert Flatten([]) + l == l;
  }

  // Across snapshots.

  function Present(ins: seq<Option<ProcesslistData>>): seq<ProcesslistData> {
    if ins == [] then []
    else Present(ins[..|ins| - 1]) +
         match ins[|ins| - 1]
         case Some(d) => if d.sampleCount > 0 then [d] else []
         case None => []
  }

  /** The snapshots with samples. */
  lemma {:induction false} KeptExactly(ins: seq<Option<ProcesslistData>>, d: ProcesslistData)
    ensures d in Present(ins) <==> d.sampleCount > 0 && exists i | 0 <= i < |ins| :: ins[i] == Some(d)
  {
    if ins != [] {
      KeptExactly(ins[..|ins| - 1], d);
    }
  }

  function QueriesOf(ds: seq<ProcesslistData>): seq<seq<Query>> {
    if ds == [] then [] else QueriesOf(ds[..|ds| - 1]) + [ds[|ds| - 1].queries]
  }

  function SamplesOf(ds: seq<ProcesslistData>): nat {
    if ds == [] then 0 else SamplesOf(ds[..|ds| - 1]) + ds[|ds| - 1].sampleCount
  }

  /** What the report shows for the snapshots `ins`. */
  ghost predicate IsConcat(ins: seq<Option<ProcesslistData>>, out: Option<ProcesslistData>) {
    var ds := Present(ins);
    if ds == [] then out.None?
    else && out.Some? && out.value.sampleCount == SamplesOf(ds)
         && exists all :: Lists(Table(Flatten(QueriesOf(ds))), all) && out.value.queries == Cap(all)
  }

  method ConcatQueries(ins: seq<Option<ProcesslistData>>) returns (out: Option<ProcesslistData>)
    ensures IsConcat(ins, out)
  {
    var ds: seq<ProcesslistData> := [];
    for i := 0 to |ins|
      invariant ds == Present(ins[..i])
    {
      assert ins[..i + 1][..i] == ins[..i];
      if ins[i].Some? && ins[i].value.sampleCount > 0 {
        ds := ds + [ins[i].value];
      }
    }
    assert ins[..|ins|] == ins;
    if |ds| == 0 {
      return None;
    }
    var cumulative, groups := 0, [];
    for i := 0 to |ds|
      invariant cumulative == SamplesOf(ds[..i]) && groups == QueriesOf(ds[..i])
    {
      assert ds[..i + 1][..i] == ds[..i];
      groups := groups + [ds[i].queries];
      cumulative := cumulative + ds[i].sampleCount;
    }
    assert ds[..|ds|] == ds;
    var queries := MergeObservedProcesslistQueries(groups);
    out := Some(ProcesslistData(cumulative, queries));
  }

  // Staging does not change the result.

  function AllSightings(files: seq<seq<Sample>>): seq<Query> {
    if files == [] then [] else AllSightings(files[..|files| - 1]) + Sightings(files[|files| - 1])
  }

  ghost predicate AllParsed(files: seq<seq<Sample>>, ins: seq<Option<ProcesslistData>>) {
    |files| == |ins| && forall i | 0 <= i < |files| :: IsParsed(files[i], ins[i])
  }

  lemma {:induction false} AllSightingsSound(files: seq<seq<Sample>>)
    ensures AllSound(AllSightings(files))
  {
    if files != [] {
      AllSightingsSound(files[..|files| - 1]);
      SightingsProper(files[|files| - 1]);
    }
  }

  /** The lists of the first files hold the same table as their sightings. */
  lemma OneMoreFile(file: seq<Sample>, d: ProcesslistData, ds: seq<ProcesslistData>, sightings: seq<Query>)
    requires file != [] && IsParsed(file, Some(d)) && AllSound(sightings)
    requires AllSound(Flatten(QueriesOf(ds))) && Table(Flatten(QueriesOf(ds))) == Table(sightings)
    ensures AllSound(Flatten(QueriesOf(ds + [d])))
    ensures Table(Flatten(QueriesOf(ds + [d]))) == Table(sightings + Sightings(file))
  {
    var groups, t := QueriesOf(ds), Table(Sightings(file));
    assert (ds + [d])[..|ds|] == ds && (groups + [d.queries])[..|groups|] == groups;
    SightingsProper(file);
    TableIsKeyed(Sightings(file));
    TableIsSound(Sightings(file));
    SortedIsDistinct(t, d.queries);
    TableOfList(t, d.queries);
    TableConcat(Flatten(groups), d.queries);
    TableConcat(sightings, Sightings(file));
  }

  lemma {:induction false} StagedTable(files: seq<seq<Sample>>, ins: seq<Option<ProcesslistData>>)
    requires AllParsed(files, ins)
    ensures AllSound(Flatten(QueriesOf(Present(ins))))
    ensures Table(Flatten(QueriesOf(Present(ins)))) == Table(AllSightings(files))
  {
    if files != [] {
      var n := |files| - 1;
      StagedTable(files[..n], ins[..n]);
      AllSightingsSound(files[..n]);
      assert IsParsed(files[n], ins[n]);
      if files[n] == [] {
        assert AllSightings(files) == AllSightings(files[..n]) && Present(ins) == Present(ins[..n]);
      } else {
        OneMoreFile(files[n], ins[n].value, Present(ins[..n]), AllSightings(files[..n]));
      }
    }
  }

  function AllSamples(files: seq<seq<Sample>>): nat {
    if files == [] then 0 else AllSamples(files[..|files| - 1]) + |files[|files| - 1]|
  }

  lemma {:induction false} StagedSamples(files: seq<seq<Sample>>, ins: seq<Option<ProcesslistData>>)
    requires AllParsed(files, ins)
    ensures SamplesOf(Present(ins)) == AllSamples(files)
  {
    if files != [] {
      ParsedBefore(files, ins);
      StagedSamples(files[..|files| - 1], ins[..|ins| - 1]);
      OneMorePresent(files[|files| - 1], ins);
    }
  }

  lemma OneMorePresent(file: seq<Sample>, ins: seq<Option<ProcesslistData>>)
    requires ins != [] && IsParsed(file, ins[|ins| - 1])
    ensures SamplesOf(Present(ins)) == SamplesOf(Present(ins[..|ins| - 1])) + |file|
  {
    var before := Present(ins[..|ins| - 1]);
    if file != [] {
      assert Present(ins) == before + [ins[|ins| - 1].value];
      assert (before + [ins[|ins| - 1].value])[..|before|] == before;
    } else {
      assert Present(ins) == before;
    }
  }

  /** Row by row, then per file, then across snapshots and capped: whatever order the maps are read in, the report
      shows the first ten groups of one merge of all sightings in order, and it exists if a file has a sample. */
  lemma StagedEqualsOneMerge(files: seq<seq<Sample>>, ins: seq<Option<ProcesslistData>>, out: Option<ProcesslistData>,
                             once: seq<Query>)
    requires AllParsed(files, ins) && IsConcat(ins, out) && Lists(Table(AllSightings(files)), once)
    ensures out.None? ==> once == []
    ensures out.Some? ==> out.value.queries == Cap(once)
    ensures out.Some? ==> Ranks(out.value.queries) && ShowsSlowest(Table(AllSightings(files)), out.value.queries)
    ensures out.Some? <==> Sampled(files)
    ensures out.Some? ==> out.value.sampleCount == AllSamples(files)
  {
    StagedTable(files, ins);
    StagedSamples(files, ins);
    TableIsKeyed(AllSightings(files));
    PresentExactly(files, ins);
    var t := Table(AllSightings(files));
    if out.Some? {
      var all :| Lists(t, all) && out.value.queries == Cap(all);
      ListIsUnique(t, all, once);
      CapShowsSlowest(t, once);
    } else {
      EmptyList(once);
    }
  }

  predicate Sampled(files: seq<seq<Sample>>) {
    exists i | 0 <= i < |files| :: files[i] != []
  }

  /** The snapshots kept are those of files with samples. */
  lemma {:induction false} PresentExactly(files: seq<seq<Sample>>, ins: seq<Option<ProcesslistData>>)
    requires AllParsed(files, ins)
    ensures Present(ins) != [] <==> Sampled(files)
  {
    if files != [] {
      ParsedBefore(files, ins);
      PresentExactly(files[..|files| - 1], ins[..|ins| - 1]);
      PresentOne(files[|files| - 1], ins);
      SampledSnoc(files);
    }
  }

  lemma ParsedBefore(files: seq<seq<Sample>>, ins: seq<Option<ProcesslistData>>)
    requires AllParsed(files, ins) && files != []
    ensures AllParsed(files[..|files| - 1], ins[..|ins| - 1])
    ensures |ins| == |files| && IsParsed(files[|files| - 1], ins[|ins| - 1])
  {
  }

  lemma PresentOne(file: seq<Sample>, ins: seq<Option<ProcesslistData>>)
    requires ins != [] && IsParsed(file, ins[|ins| - 1])
    ensures Present(ins) != [] <==> Present(ins[..|ins| - 1]) != [] || file != []
  {
  }

  lemma SampledSnoc(files: seq<seq<Sample>>)
    requires files != []
    ensures Sampled(files) <==> Sampled(files[..|files| - 1]) || files[|files| - 1] != []
  {
    var before := files[..|files| - 1];
    assert forall i | 0 <= i < |before| :: before[i] == files[i];
  }
}
