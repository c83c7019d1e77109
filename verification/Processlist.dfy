/** Grouping of active query sightings by fingerprint.  Source: model/model.go.

    A sighting and a group are the same record, as in the source.  Times are seconds; `ZERO_TIME` is Go's zero time. */
module Processlist {
  import opened Prelude

  const ZERO_TIME := -62135596800
  const MAX_QUERIES := 10

  datatype Context = Context(user: string, db: string, command: string, state: string)

  /** The largest age and where it was seen. */
  datatype Age = Age(has: bool, ms: real, context: Context)
  datatype Rows = Rows(has: bool, most: real)

  datatype Query = Query(fingerprint: string, snippet: string, firstSeen: int, lastSeen: int, seenSamples: int,
                         age: Age, examined: Rows, sent: Rows)

  function Earlier(a: int, b: int): int {
    if a == ZERO_TIME || (b != ZERO_TIME && b < a) then b else a
  }

  function Later(a: int, b: int): int {
    if b > a then b else a
  }

  function Slower(a: Age, b: Age): Age {
    if b.has && (!a.has || b.ms > a.ms) then b else a
  }

  function More(a: Rows, b: Rows): Rows {
    if b.has then Rows(true, Max(a.most, b.most)) else a
  }

  /** A group with one more sighting, or with a later group. */
  function Absorb(a: Query, b: Query): Query {
    Query(a.fingerprint, a.snippet, Earlier(a.firstSeen, b.firstSeen), Later(a.lastSeen, b.lastSeen),
          a.seenSamples + b.seenSamples, Slower(a.age, b.age), More(a.examined, b.examined), More(a.sent, b.sent))
  }

  /** An absent row count is stored as 0, a present one is not negative. */
  predicate Sound(r: Rows) {
    r.most >= 0.0 && (!r.has ==> r.most == 0.0)
  }

  predicate SoundQuery(q: Query) {
    Sound(q.examined) && Sound(q.sent)
  }

  lemma AbsorbAssociates(a: Query, b: Query, c: Query)
    requires SoundQuery(a) && SoundQuery(b) && SoundQuery(c)
    ensures Absorb(Absorb(a, b), c) == Absorb(a, Absorb(b, c))
    ensures SoundQuery(Absorb(a, b))
  {
  }

  /** Without that, merging in stages can differ from merging in one go. */
  lemma UnsoundRowsDoNotAssociate()
    ensures More(More(Rows(true, -2.0), Rows(false, 0.0)), Rows(true, -3.0)) == Rows(true, -2.0)
    ensures More(Rows(true, -2.0), More(Rows(false, 0.0), Rows(true, -3.0))) == Rows(true, 0.0)
  {
  }

  /** Exactly when the row counts of three sightings may be merged in stages. */
  lemma RowsAssociateExactly(a: Rows, b: Rows, c: Rows)
    ensures More(More(a, b), c) == More(a, More(b, c))
            <==> b.has || !c.has || b.most <= Max(a.most, c.most)
  {
  }

  // The table of groups.

  function Add(t: map<string, Query>, q: Query): map<string, Query> {
    if q.fingerprint == "" then t
    else if q.fingerprint !in t then t[q.fingerprint := q]
    else t[q.fingerprint := Absorb(t[q.fingerprint], q)]
  }

  /** One merge of all sightings, in order. */
  function Table(qs: seq<Query>): map<string, Query> {
    if qs == [] then map[] else Add(Table(qs[..|qs| - 1]), qs[|qs| - 1])
  }

  function Flatten(groups: seq<seq<Query>>): seq<Query> {
    if groups == [] then [] else Flatten(groups[..|groups| - 1]) + groups[|groups| - 1]
  }

  /** Each group is filed under its own fingerprint, which is not empty. */
  ghost predicate Keyed(t: map<string, Query>) {
    forall f | f in t :: f != "" && t[f].fingerprint == f
  }

  ghost predicate SoundTable(t: map<string, Query>) {
    forall f | f in t :: SoundQuery(t[f])
  }

  ghost predicate AllSound(qs: seq<Query>) {
    forall i | 0 <= i < |qs| :: SoundQuery(qs[i])
  }

  lemma {:induction false} TableIsKeyed(qs: seq<Query>)
    ensures Keyed(Table(qs))
  {
    if qs != [] {
      TableIsKeyed(qs[..|qs| - 1]);
    }
  }

  lemma {:induction false} TableIsSound(qs: seq<Query>)
    requires AllSound(qs)
    ensures SoundTable(Table(qs))
  {
    if qs != [] {
      TableIsSound(qs[..|qs| - 1]);
    }
  }

  // The order of the report.

  predicate Before(a: Query, b: Query) {
    if a.age.ms != b.age.ms then a.age.ms > b.age.ms
    else if a.examined.most != b.examined.most then a.examined.most > b.examined.most
    else if a.sent.most != b.sent.most then a.sent.most > b.sent.most
    else StringLess(a.fingerprint, b.fingerprint)
  }

  lemma BeforeIsOrder(t: map<string, Query>)
    requires Keyed(t)
    ensures StrictOrder(Before) && TotalOn(Before, t.Values)
  {
    forall a: Query
      ensures !Before(a, a)
    {
      StringTotal(a.fingerprint, a.fingerprint);
    }
    forall a: Query, b: Query, c: Query | Before(a, b) && Before(b, c)
      ensures Before(a, c)
    {
      if StringLess(a.fingerprint, b.fingerprint) && StringLess(b.fingerprint, c.fingerprint) {
        StringTransitive(a.fingerprint, b.fingerprint, c.fingerprint);
      }
    }
    forall a, b | a in t.Values && b in t.Values
      ensures a == b || Before(a, b) || Before(b, a)
    {
      StringTotal(a.fingerprint, b.fingerprint);
    }
  }

  /** `out` is the sorted list of the groups. */
  ghost predicate Lists(t: map<string, Query>, out: seq<Query>) {
    Sorted(out, Before) && Elements(out) == t.Values
  }

  /** The list does not depend on the order in which the map is read. */
  lemma ListIsUnique(t: map<string, Query>, a: seq<Query>, b: seq<Query>)
    requires Keyed(t) && Lists(t, a) && Lists(t, b)
    ensures a == b
  {
    BeforeIsOrder(t);
    SortedUnique(a, b, Before);
  }

  function Cap(s: seq<Query>): seq<Query> {
    if |s| > MAX_QUERIES then s[..MAX_QUERIES] else s
  }

  /** Slowest first; of equal ages the one that examined more rows, then the one that sent more, then by fingerprint. */
  ghost predicate Ranks(out: seq<Query>) {
    forall i, j | 0 <= i < j < |out| ::
      && out[i].age.ms >= out[j].age.ms
      && (out[i].age.ms == out[j].age.ms ==>
            && out[i].examined.most >= out[j].examined.most
            && (out[i].examined.most == out[j].examined.most ==>
                  && out[i].sent.most >= out[j].sent.most
                  && (out[i].sent.most == out[j].sent.most ==>
                        StringLess(out[i].fingerprint, out[j].fingerprint))))
  }

  /** At most ten groups; if one is left out, ten are shown, none of them faster. */
  ghost predicate ShowsSlowest(t: map<string, Query>, out: seq<Query>) {
    && |out| <= 10
    && (forall i | 0 <= i < |out| :: out[i].fingerprint in t && t[out[i].fingerprint] == out[i])
    && (forall f | f in t && t[f] !in out :: |out| == 10 && forall i | 0 <= i < 10 :: out[i].age.ms >= t[f].age.ms)
  }

  lemma ListRanks(t: map<string, Query>, out: seq<Query>)
    requires Lists(t, out)
    ensures Ranks(out)
  {
    assert forall i, j | 0 <= i < j < |out| :: Before(out[i], out[j]);
  }

  /** What is shown of a list of groups: the first ten, slowest first. */
  lemma CapShowsSlowest(t: map<string, Query>, all: seq<Query>)
    requires Keyed(t) && Lists(t, all)
    ensures Ranks(Cap(all)) && ShowsSlowest(t, Cap(all))
  {
    ListRanks(t, all);
    var out := Cap(all);
    forall i | 0 <= i < |out|
      ensures out[i].fingerprint in t && t[out[i].fingerprint] == out[i]
    {
      assert out[i] == all[i] && all[i] in Elements(all);
    }
    forall f | f in t && t[f] !in out
      ensures |out| == 10 && forall i | 0 <= i < 10 :: out[i].age.ms >= t[f].age.ms
    {
      assert t[f] in t.Values && t[f] in Elements(all);
      var j :| 0 <= j < |all| && all[j] == t[f];
      assert j >= |out|;
    }
  }

  method MergeAllObservedProcesslistQueries(groups: seq<seq<Query>>) returns (out: seq<Query>)
    ensures Lists(Table(Flatten(groups)), out) && Ranks(out)
  {
    var byFingerprint: map<string, Query> := map[];
    for g := 0 to |groups|
      invariant byFingerprint == Table(Flatten(groups[..g]))
    {
      assert groups[..g + 1][..g] == groups[..g];
      byFingerprint := AddGroup(Flatten(groups[..g]), groups[g], byFingerprint);
    }
    assert groups[..|groups|] == groups;
    TableIsKeyed(Flatten(groups));
    BeforeIsOrder(byFingerprint);
    var values := AnyOrder(byFingerprint.Values);
    SortIsSorted(values, Before);
    out := Sort(values, Before);
    ListRanks(byFingerprint, out);
  }

  lemma TableSnoc(before: seq<Query>, group: seq<Query>, i: nat)
    requires i < |group|
    ensures Table(before + group[..i + 1]) == Add(Table(before + group[..i]), group[i])
  {
    var all := before + group[..i + 1];
    assert all[..|all| - 1] == before + group[..i];
  }

  method AddGroup(ghost before: seq<Query>, group: seq<Query>, byFingerprint: map<string, Query>)
    returns (t: map<string, Query>)
    requires byFingerprint == Table(before)
    ensures t == Table(before + group)
  {
    t := byFingerprint;
    assert before + [] == before;
    for i := 0 to |group|
      invariant t == Table(before + group[..i])
    {
      TableSnoc(before, group, i);
      var q := group[i];
      if q.fingerprint == "" {
        continue;
      }
      if q.fingerprint !in t {
        t := t[q.fingerprint := q];
        continue;
      }
      t := t[q.fingerprint := Absorb(t[q.fingerprint], q)];
    }
    assert group[..|group|] == group;
  }

  method MergeObservedProcesslistQueries(groups: seq<seq<Query>>) returns (out: seq<Query>)
    ensures exists all :: Lists(Table(Flatten(groups)), all) && out == Cap(all)
    ensures Ranks(out) && ShowsSlowest(Table(Flatten(groups)), out)
  {
    out := MergeAllObservedProcesslistQueries(groups);
    TableIsKeyed(Flatten(groups));
    CapShowsSlowest(Table(Flatten(groups)), out);
    if |out| > MAX_QUERIES {
      out := out[..MAX_QUERIES];
    }
  }

  // What a group says about its sightings.

  function SeenTotal(qs: seq<Query>, f: string): int {
    if qs == [] then 0
    else SeenTotal(qs[..|qs| - 1], f) + if qs[|qs| - 1].fingerprint == f then qs[|qs| - 1].seenSamples else 0
  }

  /** `i` is the first of the slowest sightings of `f`. */
  ghost predicate IsFirstSlowest(qs: seq<Query>, f: string, i: nat) {
    && i < |qs| && qs[i].fingerprint == f && qs[i].age.has
    && (forall j | 0 <= j < |qs| && qs[j].fingerprint == f && qs[j].age.has :: qs[j].age.ms <= qs[i].age.ms)
    && (forall j | 0 <= j < i && qs[j].fingerprint == f && qs[j].age.has :: qs[j].age.ms < qs[i].age.ms)
  }

  predicate Sighted(qs: seq<Query>, f: string) {
    exists j | 0 <= j < |qs| :: qs[j].fingerprint == f
  }

  predicate Aged(qs: seq<Query>, f: string) {
    exists j | 0 <= j < |qs| :: qs[j].fingerprint == f && qs[j].age.has
  }

  lemma SightedSnoc(qs: seq<Query>, q: Query, f: string)
    ensures Sighted(qs + [q], f) <==> Sighted(qs, f) || q.fingerprint == f
    ensures Aged(qs + [q], f) <==> Aged(qs, f) || (q.fingerprint == f && q.age.has)
  {
    var all := qs + [q];
    assert all[|qs|] == q;
    assert forall j | 0 <= j < |qs| :: all[j] == qs[j];
  }

  /** There is a group for every fingerprint sighted, and it counts all sightings. */
  lemma {:induction false} GroupCountsSightings(qs: seq<Query>, f: string)
    requires f != ""
    ensures f in Table(qs) <==> Sighted(qs, f)
    ensures f in Table(qs) ==> Table(qs)[f].seenSamples == SeenTotal(qs, f)
    ensures f !in Table(qs) ==> SeenTotal(qs, f) == 0
  {
    if qs != [] {
      var before, q := qs[..|qs| - 1], qs[|qs| - 1];
      GroupCountsSightings(before, f);
      SightedSnoc(before, q, f);
      assert qs == before + [q];
    }
  }

  lemma FirstSlowestSnoc(qs: seq<Query>, q: Query, f: string, i: nat)
    requires IsFirstSlowest(qs, f, i)
    ensures if q.fingerprint == f && q.age.has && q.age.ms > qs[i].age.ms then IsFirstSlowest(qs + [q], f, |qs|)
            else IsFirstSlowest(qs + [q], f, i)
  {
    var all := qs + [q];
    assert all[|qs|] == q && all[i] == qs[i];
    assert forall j | 0 <= j < |qs| :: all[j] == qs[j];
  }

  lemma FirstAged(qs: seq<Query>, q: Query, f: string)
    requires !Aged(qs, f) && q.fingerprint == f && q.age.has
    ensures IsFirstSlowest(qs + [q], f, |qs|)
  {
    assert forall j | 0 <= j < |qs| :: (qs + [q])[j] == qs[j];
  }

  ghost predicate AgeIsFirstSlowest(qs: seq<Query>, f: string) {
    f in Table(qs) && exists i: nat :: IsFirstSlowest(qs, f, i) && Table(qs)[f].age == qs[i].age
  }

  /** A group's age and context are those of the first of its slowest sightings. */
  lemma {:induction false} AgeComesFromSlowest(qs: seq<Query>, f: string)
    requires f != ""
    ensures Aged(qs, f) ==> AgeIsFirstSlowest(qs, f)
    ensures f in Table(qs) && !Aged(qs, f) ==> !Table(qs)[f].age.has
  {
    if qs != [] {
      var before, q := qs[..|qs| - 1], qs[|qs| - 1];
      AgeComesFromSlowest(before, f);
      SightedSnoc(before, q, f);
      assert qs == before + [q];
      if Aged(before, f) {
        var i: nat :| IsFirstSlowest(before, f, i) && Table(before)[f].age == before[i].age;
        FirstSlowestSnoc(before, q, f, i);
      } else if q.fingerprint == f && q.age.has {
        FirstAged(before, q, f);
      }
    }
  }

  /** `i` is the first sighting of `f`. */
  ghost predicate IsFirst(qs: seq<Query>, f: string, i: nat) {
    i < |qs| && qs[i].fingerprint == f && forall j | 0 <= j < i :: qs[j].fingerprint != f
  }

  /** A group shows the text of its first sighting. */
  lemma {:induction false} SnippetComesFromFirst(qs: seq<Query>, f: string)
    requires f in Table(qs)
    ensures exists i: nat :: IsFirst(qs, f, i) && Table(qs)[f].snippet == qs[i].snippet
  {
    var before, q := qs[..|qs| - 1], qs[|qs| - 1];
    if f in Table(before) {
      SnippetComesFromFirst(before, f);
      var i: nat :| IsFirst(before, f, i) && Table(before)[f].snippet == before[i].snippet;
      assert IsFirst(qs, f, i);
    } else {
      GroupCountsSightings(before, f);
      assert IsFirst(qs, f, |before|);
    }
  }

  /** The group `g` covers the sighting `q`. */
  predicate CoversRows(g: Rows, r: Rows) {
    r.has ==> g.has && r.most <= g.most
  }

  predicate CoversSighting(g: Query, q: Query) {
    && q.lastSeen <= g.lastSeen
    && (q.firstSeen != -62135596800 ==> g.firstSeen != -62135596800 && g.firstSeen <= q.firstSeen)
    && CoversRows(g.examined, q.examined) && CoversRows(g.sent, q.sent)
  }

  ghost predicate CoversAll(g: Query, qs: seq<Query>) {
    forall j | 0 <= j < |qs| && qs[j].fingerprint == g.fingerprint :: CoversSighting(g, qs[j])
  }

  /** Each bound of the group is that of a sighting. */
  ghost predicate AttainsBounds(g: Query, qs: seq<Query>) {
    && (exists j :: 0 <= j < |qs| && qs[j].fingerprint == g.fingerprint && qs[j].lastSeen == g.lastSeen)
    && (exists j :: 0 <= j < |qs| && qs[j].fingerprint == g.fingerprint && qs[j].firstSeen == g.firstSeen)
    && (exists j :: 0 <= j < |qs| && qs[j].fingerprint == g.fingerprint && qs[j].examined == g.examined)
    && (exists j :: 0 <= j < |qs| && qs[j].fingerprint == g.fingerprint && qs[j].sent == g.sent)
  }

  lemma AbsorbCovers(g: Query, q: Query, qs: seq<Query>)
    requires SoundQuery(g) && SoundQuery(q) && q.fingerprint == g.fingerprint && CoversAll(g, qs)
    ensures CoversAll(Absorb(g, q), qs + [q])
  {
    var all, h := qs + [q], Absorb(g, q);
    forall j | 0 <= j < |all| && all[j].fingerprint == h.fingerprint
      ensures CoversSighting(h, all[j])
    {
      if j < |qs| {
        assert all[j] == qs[j] && CoversSighting(g, qs[j]);
      }
    }
  }

  lemma AbsorbAttains(g: Query, q: Query, qs: seq<Query>)
    requires SoundQuery(g) && SoundQuery(q) && q.fingerprint == g.fingerprint && AttainsBounds(g, qs)
    ensures AttainsBounds(Absorb(g, q), qs + [q])
  {
    AttainsMore(g, qs, q);
    assert (qs + [q])[|qs|] == q;
  }

  lemma AttainsMore(g: Query, qs: seq<Query>, q: Query)
    requires AttainsBounds(g, qs)
    ensures AttainsBounds(g, qs + [q])
  {
    assert forall j | 0 <= j < |qs| :: (qs + [q])[j] == qs[j];
  }

  ghost predicate Spans(g: Query, qs: seq<Query>) {
    CoversAll(g, qs) && AttainsBounds(g, qs)
  }

  lemma SpansNext(g: Query, qs: seq<Query>, q: Query)
    requires SoundQuery(g) && SoundQuery(q) && Spans(g, qs)
    ensures Spans(if q.fingerprint == g.fingerprint then Absorb(g, q) else g, qs + [q])
  {
    if q.fingerprint == g.fingerprint {
      AbsorbCovers(g, q, qs);
      AbsorbAttains(g, q, qs);
    } else {
      AttainsMore(g, qs, q);
      assert forall j | 0 <= j < |qs| :: (qs + [q])[j] == qs[j];
    }
  }

  /** The group of a fingerprint spans the times of its sightings and peaks where they do. */
  lemma {:induction false} GroupSpansSightings(qs: seq<Query>, f: string)
    requires AllSound(qs) && f in Table(qs)
    ensures Spans(Table(qs)[f], qs)
  {
    var before, q := qs[..|qs| - 1], qs[|qs| - 1];
    assert qs == before + [q];
    TableIsKeyed(before);
    TableIsSound(before);
    if f in Table(before) {
      GroupSpansSightings(before, f);
      SpansNext(Table(before)[f], before, q);
    } else {
      FirstSighting(before, q, f);
    }
  }

  lemma FirstSighting(before: seq<Query>, q: Query, f: string)
    requires f !in Table(before) && f in Table(before + [q])
    ensures Table(before + [q])[f] == q && q.fingerprint == f
    ensures Spans(q, before + [q])
  {
    var all := before + [q];
    assert all[..|before|] == before && all[|before|] == q;
    GroupCountsSightings(before, f);
    assert forall j | 0 <= j < |before| :: all[j] == before[j];
  }
}
