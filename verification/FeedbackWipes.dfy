/** Stored responses can be wiped, against the comment in feedback-worker/src/idempotency.ts:67-69: by exactly which
    requests, and a run in which it happens. */
module FeedbackWipes {
  import opened Prelude
  import opened FeedbackProtocol
  import opened FeedbackSafety
  import opened FeedbackSpacing

  predicate Replays(s: State, k: Key) {
    s.Live(k).Some? && s.Live(k).value.Done?
  }

  // What can still happen.

  /** The key replays at every point of the run from `s`. */
  ghost predicate KeepsReplaying(s: State, run: seq<Action>, k: Key) {
    Legal(s, run) && Replays(Exec(s, run), k) && (run != [] ==> KeepsReplaying(s, run[..|run| - 1], k))
  }

  /** After `run`, a step turns the response, replayed all along, back into a reservation. */
  ghost predicate Wipes(s: State, run: seq<Action>, a: Action, k: Key) {
    KeepsReplaying(s, run, k) && Enabled(Exec(s, run), a) && Apply(Exec(s, run), a).Live(k) == Some(Inflight)
  }

  predicate IsStale(s: State, r: nat, k: Key) {
    r < |s.reqs| && s.reqs[r].pc.Gap? && s.reqs[r].key == k
  }

  /** While a key replays, no further request for it gets past the read. */
  lemma {:induction false} NoNewStaleRead(s: State, run: seq<Action>, k: Key, r: nat)
    requires KeepsReplaying(s, run, k) && IsStale(Exec(s, run), r, k)
    ensures IsStale(s, r, k)
  {
    if run != [] {
      GapStep(Exec(s, run[..|run| - 1]), run[|run| - 1], r);
      NoNewStaleRead(s, run[..|run| - 1], k, r);
    }
  }

  lemma WipingStep(s: State, a: Action, k: Key)
    requires Enabled(s, a) && Replays(s, k)
    ensures Apply(s, a).Live(k) == Some(Inflight) <==> a.PutInflight? && a.ok && IsStale(s, a.r, k)
  {
  }

  /** Some continuation wipes a live response before it expires if and only if a request for the key is now between its
      read and its write, whatever happens in between. */
  lemma WipedExactlyInTheGap(s: State, k: Key)
    requires Replays(s, k)
    ensures (exists run, a :: Wipes(s, run, a, k)) <==> exists r :: IsStale(s, r, k)
  {
    if r :| IsStale(s, r, k) {
      WipingStep(s, PutInflight(r, true), k);
      assert Exec(s, []) == s && Enabled(s, PutInflight(r, true));
      assert Wipes(s, [], PutInflight(r, true), k);
    }
    if run, a :| Wipes(s, run, a, k) {
      WipingStep(Exec(s, run), a, k);
      NoNewStaleRead(s, run, k, a.r);
    }
  }

  // What must have happened.

  /** Action `m` of the run stored a response for the key. */
  ghost predicate StoresAt(run: seq<Action>, m: nat, k: Key)
    requires Legal(INITIAL, run)
  {
    && m < |run| && run[m].PutDone? && run[m].ok
    && run[m].r < |Exec(INITIAL, run).reqs| && Exec(INITIAL, run).reqs[run[m].r].key == k
  }

  /** Request `r` read the key in action `l`, before a response was stored for it. */
  ghost predicate ReadTooEarly(run: seq<Action>, l: nat, r: nat, k: Key)
    requires Legal(INITIAL, run)
  {
    l < |run| && run[l] == Lookup(r, true) && exists m :: l < m < |run| && StoresAt(run, m, k)
  }

  lemma StoresLater(run: seq<Action>, m: nat, k: Key)
    requires run != [] && Legal(INITIAL, run) && StoresAt(run[..|run| - 1], m, k)
    ensures StoresAt(run, m, k)
  {
    StepExtends(Exec(INITIAL, run[..|run| - 1]), run[|run| - 1]);
  }

  /** A key that was free after `l` actions and replays now has had a response stored since. */
  lemma {:induction false} StoredSince(run: seq<Action>, l: nat, k: Key) returns (m: nat)
    requires Legal(INITIAL, run) && l <= |run| && Replays(Exec(INITIAL, run), k)
    requires Legal(INITIAL, run[..l]) && Exec(INITIAL, run[..l]).Live(k) == None
    ensures l <= m && StoresAt(run, m, k)
  {
    assert run[..|run|] == run;
    var before := run[..|run| - 1];
    assert before[..l] == run[..l];
    if Replays(Exec(INITIAL, before), k) {
      m := StoredSince(before, l, k);
      StoresLater(run, m, k);
    } else {
      m := |before|;
    }
  }

  lemma GapStep(s: State, a: Action, r: nat)
    requires Enabled(s, a) && r < |Apply(s, a).reqs| && Apply(s, a).reqs[r].pc.Gap?
    ensures r < |s.reqs| && Apply(s, a).reqs[r].key == s.reqs[r].key
    ensures if a == Lookup(r, true) then s.Live(s.reqs[r].key) == None else s.reqs[r].pc.Gap?
  {
  }

  /** A request in the gap has read its key, which was free then. */
  lemma {:induction false} GapHasRead(run: seq<Action>, r: nat) returns (l: nat)
    requires Legal(INITIAL, run) && r < |Exec(INITIAL, run).reqs| && Exec(INITIAL, run).reqs[r].pc.Gap?
    ensures l < |run| && run[l] == Lookup(r, true) && Legal(INITIAL, run[..l])
    ensures Exec(INITIAL, run[..l]).Live(Exec(INITIAL, run).reqs[r].key) == None
  {
    var before := run[..|run| - 1];
    GapStep(Exec(INITIAL, before), run[|run| - 1], r);
    if run[|run| - 1] == Lookup(r, true) {
      l := |before|;
    } else {
      l := GapHasRead(before, r);
      assert before[..l] == run[..l];
    }
  }

  lemma TimeKeepsFree(s: State, a: Action, k: Key)
    requires Enabled(s, a) && s.Live(k) == None && a.Lookup?
    ensures Apply(s, a).Live(k) == None
  {
  }

  /** Over whole runs: a step wipes a live response if and only if it writes the reservation of a request that read the
      key before a response was stored. */
  lemma WipedExactlyByStaleReads(run: seq<Action>, a: Action, k: Key)
    requires Legal(INITIAL, run) && Enabled(Exec(INITIAL, run), a) && Replays(Exec(INITIAL, run), k)
    ensures Apply(Exec(INITIAL, run), a).Live(k) == Some(Inflight)
            <==> && a.PutInflight? && a.ok && Exec(INITIAL, run).reqs[a.r].key == k
                 && exists l :: ReadTooEarly(run, l, a.r, k)
  {
    var s := Exec(INITIAL, run);
    WipingStep(s, a, k);
    if a.PutInflight? && a.ok && IsStale(s, a.r, k) {
      var l := GapHasRead(run, a.r);
      assert run[..l + 1][..l] == run[..l];
      LegalPrefix(run, l + 1);
      TimeKeepsFree(Exec(INITIAL, run[..l]), run[l], k);
      var m := StoredSince(run, l + 1, k);
      assert ReadTooEarly(run, l, a.r, k);
    }
  }

  lemma {:induction false} LegalPrefix(run: seq<Action>, n: nat)
    requires Legal(INITIAL, run) && n <= |run|
    ensures Legal(INITIAL, run[..n])
  {
    if n < |run| {
      LegalPrefix(run[..|run| - 1], n);
      assert run[..|run| - 1][..n] == run[..n];
    } else {
      assert run[..n] == run;
    }
  }

  // An input.

  /** Two requests read; the first goes all the way and its response is stored; then the second writes. */
  lemma DoneIsWiped(k: Key) returns (run: seq<Action>)
    ensures Legal(INITIAL, run) && Exec(INITIAL, run).Live(k) == Some(Done(0))
    ensures Enabled(Exec(INITIAL, run), PutInflight(1, true))
    ensures Apply(Exec(INITIAL, run), PutInflight(1, true)).Live(k) == Some(Inflight)
  {
    run := BothMiss(k);
    var kv, first := map[k := HELD], Issue(k, 0, 0.0, []);
    var s1 := Pair(k, kv, [], Reserved, Gap, []);
    Extend(run, Pair(k, map[], [], Gap, Gap, []), PutInflight(0, true), s1);
    run := run + [PutInflight(0, true)];
    var s2 := Pair(k, kv, [], Creating, Gap, [0]);
    Extend(run, s1, Charge(0, Allowed), s2);
    run := run + [Charge(0, Allowed)];
    var s3 := Pair(k, kv, [first], Caching(0, 0), Gap, [0]);
    Extend(run, s2, CreateIssue(0, true), s3);
    run := run + [CreateIssue(0, true)];
    var s4 := Pair(k, map[k := Entry(Done(0), DONE_TTL)], [first], Answered(Fresh(0)), Gap, [0]);
    Extend(run, s3, PutDone(0, true), s4);
    run := run + [PutDone(0, true)];
  }
}
