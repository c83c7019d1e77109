/** When reading and writing a reservation is one atomic step, and handlers are timely, two issues for the
    same idempotency key are at least five minutes apart.  Each of the hypotheses is needed. */
module FeedbackSpacing {
  import opened Prelude
  import opened FeedbackProtocol
  import opened FeedbackSafety

  /** No action of anybody lies between the read and the write of a reservation. */
  ghost predicate AtomicReserve(run: seq<Action>) {
    forall n | 0 <= n < |run| && run[n].PutInflight? :: n > 0 && run[n - 1] == Lookup(run[n].r, true)
  }

  /** No request holds a reservation for as long as its record lives. */
  ghost predicate InTime(s: State) {
    forall r | 0 <= r < |s.reqs| && s.reqs[r].Active() :: s.now < s.reqs[r].reservedAt + INFLIGHT_TTL
  }

  ghost predicate Timely(run: seq<Action>)
    requires Legal(INITIAL, run)
  {
    InTime(Exec(INITIAL, run)) && (run != [] ==> Timely(run[..|run| - 1]))
  }

  /** The step does not lose the response of an issue already created. */
  predicate KeepsResponse(s: State, a: Action)
    requires Enabled(s, a)
  {
    && (a.Crash? ==> !s.reqs[a.r].pc.Caching?)
    && (a.PutDone? && !a.ok ==> s.reqs[a.r].pc.tries + 1 < CACHE_ATTEMPTS)
  }

  /** Whoever creates an issue succeeds in storing its response. */
  ghost predicate Durable(run: seq<Action>)
    requires Legal(INITIAL, run)
  {
    run != [] ==>
      var before := run[..|run| - 1];
      KeepsResponse(Exec(INITIAL, before), run[|run| - 1]) && Durable(before)
  }

  // The inductive invariant.

  predicate HoldsReservation(s: State, r: nat)
    requires r < |s.reqs|
  {
    var q := s.reqs[r];
    q.Active() ==> q.key in s.kv && s.kv[q.key] == Entry(Inflight, q.reservedAt + INFLIGHT_TTL)
  }

  predicate Alone(s: State, r: nat, r': nat)
    requires r < |s.reqs| && r' < |s.reqs|
  {
    s.reqs[r].Active() && s.reqs[r'].Active() && s.reqs[r].key == s.reqs[r'].key ==> r == r'
  }

  /** Issue `i` is old enough, or its creator is about to store it, or the store still replays it. */
  predicate Guarded(s: State, i: nat)
    requires i < |s.issues|
  {
    var e := s.issues[i];
    && e.at <= s.now
    && (|| e.at + DONE_TTL <= s.now
        || (e.creator < |s.reqs| && s.reqs[e.creator].pc.Caching? && s.reqs[e.creator].pc.issue == i)
        || (e.key in s.kv && s.kv[e.key].value == Done(i) && e.at + DONE_TTL <= s.kv[e.key].expiry))
  }

  ghost predicate Spaced(s: State) {
    forall i, j | 0 <= i < j < |s.issues| && s.issues[i].key == s.issues[j].key ::
      s.issues[i].at + DONE_TTL <= s.issues[j].at
  }

  ghost predicate Inv(s: State) {
    && (forall r | 0 <= r < |s.reqs| :: HoldsReservation(s, r))
    && (forall r, r' | 0 <= r < |s.reqs| && 0 <= r' < |s.reqs| :: Alone(s, r, r'))
    && (forall i | 0 <= i < |s.issues| :: Guarded(s, i))
    && Spaced(s)
  }

  /** If the step writes a reservation, the read before it was made in this very state and missed. */
  predicate ReservesUnseen(s: State, a: Action)
    requires Enabled(s, a)
  {
    a.PutInflight? ==> s.Live(s.reqs[a.r].key) == None
  }

  lemma StepKeepsReservations(s: State, a: Action, r: nat)
    requires Enabled(s, a) && Inv(s) && InTime(s) && ReservesUnseen(s, a)
    requires r < |Apply(s, a).reqs|
    ensures HoldsReservation(Apply(s, a), r)
  {
    if r < |s.reqs| {
      assert HoldsReservation(s, r);
      if a.PutInflight? || a.PutDone? {
        assert HoldsReservation(s, a.r) && Alone(s, r, a.r);
      }
    }
  }

  lemma StepKeepsAlone(s: State, a: Action, r: nat, r': nat)
    requires Enabled(s, a) && Inv(s) && InTime(s) && ReservesUnseen(s, a)
    requires r < |Apply(s, a).reqs| && r' < |Apply(s, a).reqs|
    ensures Alone(Apply(s, a), r, r')
  {
    if r < |s.reqs| && r' < |s.reqs| {
      assert Alone(s, r, r') && HoldsReservation(s, r) && HoldsReservation(s, r');
    }
  }

  lemma StepKeepsGuard(s: State, a: Action, i: nat)
    requires Enabled(s, a) && Inv(s) && InTime(s) && ReservesUnseen(s, a) && KeepsResponse(s, a)
    requires RepliesNameIssues(s) && i < |s.issues|
    ensures i < |Apply(s, a).issues| && Guarded(Apply(s, a), i)
  {
    var e := s.issues[i];
    assert Guarded(s, i);
    if e.creator < |s.reqs| {
      assert HoldsReservation(s, e.creator) && ReplyNamesIssue(s, e.creator);
      if a.PutInflight? || a.PutDone? {
        assert HoldsReservation(s, a.r) && Alone(s, e.creator, a.r);
      }
    }
    if a.PutDone? {
      assert HoldsReservation(s, a.r) && ReplyNamesIssue(s, a.r);
    }
  }

  /** Creating an issue while holding the reservation comes at least five minutes after any earlier one. */
  lemma CreationIsLate(s: State, r: nat, i: nat)
    requires Inv(s) && InTime(s) && RepliesNameIssues(s)
    requires r < |s.reqs| && s.reqs[r].pc.Creating? && i < |s.issues| && s.issues[i].key == s.reqs[r].key
    ensures s.issues[i].at + DONE_TTL <= s.now
  {
    var c := s.issues[i].creator;
    assert Guarded(s, i) && HoldsReservation(s, r);
    if c < |s.reqs| {
      assert Alone(s, c, r) && ReplyNamesIssue(s, c);
    }
  }

  lemma StepKeepsInv(s: State, a: Action)
    requires Enabled(s, a) && Inv(s) && InTime(s) && RepliesNameIssues(s)
    requires ReservesUnseen(s, a) && KeepsResponse(s, a)
    ensures Inv(Apply(s, a))
  {
    var t := Apply(s, a);
    forall r | 0 <= r < |t.reqs| ensures HoldsReservation(t, r) {
      StepKeepsReservations(s, a, r);
    }
    forall r, r' | 0 <= r < |t.reqs| && 0 <= r' < |t.reqs| ensures Alone(t, r, r') {
      StepKeepsAlone(s, a, r, r');
    }
    forall i | 0 <= i < |t.issues| ensures Guarded(t, i) {
      if i < |s.issues| {
        StepKeepsGuard(s, a, i);
      }
    }
    if a.CreateIssue? && a.ok {
      forall i | 0 <= i < |s.issues| && s.issues[i].key == s.reqs[a.r].key
        ensures s.issues[i].at + DONE_TTL <= s.now
      {
        CreationIsLate(s, a.r, i);
      }
    }
  }

  lemma AtomicReserveSeesMiss(run: seq<Action>)
    requires Legal(INITIAL, run) && AtomicReserve(run) && run != []
    ensures ReservesUnseen(Exec(INITIAL, run[..|run| - 1]), run[|run| - 1])
  {
    var before := run[..|run| - 1];
    if run[|run| - 1].PutInflight? {
      assert before != [] && before[|before| - 1] == run[|run| - 2] == Lookup(run[|run| - 1].r, true);
    }
  }

  lemma {:induction false} DisciplinedRunKeepsInv(run: seq<Action>)
    requires Legal(INITIAL, run) && AtomicReserve(run) && Timely(run) && Durable(run)
    ensures Inv(Exec(INITIAL, run))
  {
    if run != [] {
      var before := run[..|run| - 1];
      DisciplinedRunKeepsInv(before);
      EveryInterleavingIsSafe(before);
      AtomicReserveSeesMiss(run);
      StepKeepsInv(Exec(INITIAL, before), run[|run| - 1]);
    }
  }

  /** Any two issues for the same key are at least 300 s apart, whatever the interleaving. */
  lemma SameKeyIssuesAreSpaced(run: seq<Action>, i: nat, j: nat)
    requires Legal(INITIAL, run) && AtomicReserve(run) && Timely(run) && Durable(run)
    requires i < j < |Exec(INITIAL, run).issues|
    requires Exec(INITIAL, run).issues[i].key == Exec(INITIAL, run).issues[j].key
    ensures Exec(INITIAL, run).issues[j].at - Exec(INITIAL, run).issues[i].at >= 300.0
  {
    DisciplinedRunKeepsInv(run);
  }

  /** For 300 s after its creation, once its creator has replied, an issue is what a duplicate is answered with. */
  lemma ReplaysItsIssue(run: seq<Action>, i: nat)
    requires Legal(INITIAL, run) && AtomicReserve(run) && Timely(run) && Durable(run)
    requires var s := Exec(INITIAL, run);
             && i < |s.issues| && s.now < s.issues[i].at + 300.0
             && s.issues[i].creator < |s.reqs| && s.reqs[s.issues[i].creator].pc.Answered?
    ensures var s := Exec(INITIAL, run);
            s.Live(s.issues[i].key) == Some(Done(i))
  {
    DisciplinedRunKeepsInv(run);
    assert Guarded(Exec(INITIAL, run), i);
  }

  // The hypotheses cannot be dropped, and the code does not enforce them.

  /** With an atomic reservation no step of any run wipes a stored response. */
  lemma AtomicReserveNeverWipes(run: seq<Action>, k: Key)
    requires Legal(INITIAL, run) && AtomicReserve(run) && run != []
    requires var s := Exec(INITIAL, run[..|run| - 1]); s.Live(k).Some? && s.Live(k).value.Done?
    ensures Exec(INITIAL, run).Live(k) != Some(Inflight)
  {
    AtomicReserveSeesMiss(run);
  }

  /** `run` leads to `s`, is timely and durable. */
  ghost predicate Reaches(run: seq<Action>, s: State) {
    Leads(run, s) && Timely(run) && Durable(run)
  }

  lemma AtomicSnoc(run: seq<Action>, a: Action)
    requires AtomicReserve(run) && (a.PutInflight? ==> run != [] && run[|run| - 1] == Lookup(a.r, true))
    ensures AtomicReserve(run + [a])
  {
  }

  lemma TimelySnoc(run: seq<Action>, s: State, a: Action, t: State)
    requires Leads(run, s) && Leads(run + [a], t)
    ensures Timely(run + [a]) <==> Timely(run) && InTime(t)
  {
    assert (run + [a])[..|run|] == run;
  }

  lemma DurableSnoc(run: seq<Action>, s: State, a: Action)
    requires Leads(run, s) && Enabled(s, a) && Legal(INITIAL, run + [a])
    ensures Durable(run + [a]) <==> Durable(run) && KeepsResponse(s, a)
  {
    assert (run + [a])[..|run|] == run;
  }

  lemma Then(run: seq<Action>, s: State, a: Action, t: State)
    requires Leads(run, s) && Enabled(s, a) && Apply(s, a) == t
    ensures Leads(run + [a], t)
    ensures Timely(run + [a]) <==> Timely(run) && InTime(t)
    ensures Durable(run + [a]) <==> Durable(run) && KeepsResponse(s, a)
    ensures AtomicReserve(run) && (a.PutInflight? ==> run != [] && run[|run| - 1] == Lookup(a.r, true)) ==>
              AtomicReserve(run + [a])
  {
    Extend(run, s, a, t);
    TimelySnoc(run, s, a, t);
    DurableSnoc(run, s, a);
    if AtomicReserve(run) && (a.PutInflight? ==> run != [] && run[|run| - 1] == Lookup(a.r, true)) {
      AtomicSnoc(run, a);
    }
  }

  /** The state of two requests for `k` without attachments, at time zero. */
  function Pair(k: Key, kv: map<Key, Entry>, issues: seq<Issue>, pc: Pc, pc': Pc, slots: seq<nat>): State {
    State(0.0, kv, {}, issues, [Plain(k, pc), Plain(k, pc')], slots, [])
  }

  function Plain(k: Key, pc: Pc): Req {
    Req(k, [], pc, 0.0, [], {})
  }

  lemma BothMiss(k: Key) returns (run: seq<Action>)
    ensures run == [Arrive(k, []), Arrive(k, []), Lookup(0, true), Lookup(1, true)]
    ensures Reaches(run, Pair(k, map[], [], Gap, Gap, []))
  {
    var s1 := State(0.0, map[], {}, [], [Plain(k, Arrived)], [], []);
    Then([], INITIAL, Arrive(k, []), s1);
    Then([] + [Arrive(k, [])], s1, Arrive(k, []), Pair(k, map[], [], Arrived, Arrived, []));
    run := [] + [Arrive(k, [])] + [Arrive(k, [])];
    Then(run, Pair(k, map[], [], Arrived, Arrived, []), Lookup(0, true), Pair(k, map[], [], Gap, Arrived, []));
    run := run + [Lookup(0, true)];
    Then(run, Pair(k, map[], [], Gap, Arrived, []), Lookup(1, true), Pair(k, map[], [], Gap, Gap, []));
    run := run + [Lookup(1, true)];
  }

  lemma BothReserve(k: Key) returns (run: seq<Action>)
    ensures |run| == 8 && run[3] == Lookup(1, true) && run[4] == PutInflight(0, true)
    ensures Reaches(run, Pair(k, map[k := HELD], [], Creating, Creating, [0, 1]))
  {
    run := BothMiss(k);
    var kv := map[k := HELD];
    Then(run, Pair(k, map[], [], Gap, Gap, []), PutInflight(0, true), Pair(k, kv, [], Reserved, Gap, []));
    run := run + [PutInflight(0, true)];
    Then(run, Pair(k, kv, [], Reserved, Gap, []), PutInflight(1, true), Pair(k, kv, [], Reserved, Reserved, []));
    run := run + [PutInflight(1, true)];
    Then(run, Pair(k, kv, [], Reserved, Reserved, []), Charge(0, Allowed), Pair(k, kv, [], Creating, Reserved, [0]));
    run := run + [Charge(0, Allowed)];
    Then(run, Pair(k, kv, [], Creating, Reserved, [0]), Charge(1, Allowed),
         Pair(k, kv, [], Creating, Creating, [0, 1]));
    run := run + [Charge(1, Allowed)];
  }

  /** Without atomicity: two requests read before either writes, and both create an issue at once. */
  lemma RaceMakesTwins(k: Key) returns (run: seq<Action>)
    ensures Legal(INITIAL, run) && Timely(run) && Durable(run) && !AtomicReserve(run)
    ensures var s := Exec(INITIAL, run);
            |s.issues| == 2 && s.issues[0].key == s.issues[1].key == k && s.issues[0].at == s.issues[1].at
  {
    run := BothReserve(k);
    var kv := map[k := HELD];
    var first := Issue(k, 0, 0.0, []);
    var s1 := Pair(k, kv, [first], Caching(0, 0), Creating, [0, 1]);
    var s2 := Pair(k, kv, [first, Issue(k, 1, 0.0, [])], Caching(0, 0), Caching(1, 0), [0, 1]);
    Then(run, Pair(k, kv, [], Creating, Creating, [0, 1]), CreateIssue(0, true), s1);
    run := run + [CreateIssue(0, true)];
    Then(run, s1, CreateIssue(1, true), s2);
    run := run + [CreateIssue(1, true)];
    assert run[4] == PutInflight(0, true) && run[3] == Lookup(1, true);
  }

  /** A new request without attachments finds the key free, reserves it and passes the limiter. */
  function WithNewcomer(s: State, k: Key): State {
    s.(kv := s.kv[k := Entry(Inflight, s.now + INFLIGHT_TTL)],
       reqs := s.reqs + [Req(k, [], Creating, s.now, [], s.bucket)],
       slots := s.slots + [|s.reqs|])
  }

  lemma NewcomerInTime(s: State, t: State, q: Req)
    requires InTime(s) && t.now == s.now && t.reqs == s.reqs + [q] && q.reservedAt == s.now
    ensures InTime(t)
  {
  }

  lemma NewcomerMisses(run: seq<Action>, s: State, k: Key) returns (longer: seq<Action>)
    requires Leads(run, s) && AtomicReserve(run) && s.Live(k) == None
    ensures longer != [] && longer[|longer| - 1] == Lookup(|s.reqs|, true)
    ensures Leads(longer, s.(reqs := s.reqs + [Req(k, [], Gap, s.now, [], s.bucket)])) && AtomicReserve(longer)
    ensures (Durable(longer) <==> Durable(run)) && (Timely(run) ==> Timely(longer))
  {
    var q := Req(k, [], Arrived, s.now, [], s.bucket);
    var s1 := s.(reqs := s.reqs + [q]);
    var s2 := s.(reqs := s.reqs + [q.(pc := Gap)]);
    Then(run, s, Arrive(k, []), s1);
    var run1 := run + [Arrive(k, [])];
    Then(run1, s1, Lookup(|s.reqs|, true), s2);
    longer := run1 + [Lookup(|s.reqs|, true)];
    if Timely(run) {
      NewcomerInTime(s, s1, q);
      NewcomerInTime(s, s2, q.(pc := Gap));
    }
  }

  lemma NewcomerWrites(s: State, s2: State, s3: State, q: Req)
    requires q.pc == Gap && q.files == [] && q.uploads == [] && q.reservedAt == s.now
    requires s2 == s.(reqs := s.reqs + [q])
    requires s3 == s.(kv := s.kv[q.key := Entry(Inflight, s.now + INFLIGHT_TTL)], reqs := s.reqs + [q.(pc := Reserved)])
    ensures Enabled(s2, PutInflight(|s.reqs|, true)) && Apply(s2, PutInflight(|s.reqs|, true)) == s3
    ensures Enabled(s3, Charge(|s.reqs|, Allowed))
    ensures Apply(s3, Charge(|s.reqs|, Allowed))
            == s3.(reqs := s.reqs + [q.(pc := Creating)], slots := s.slots + [|s.reqs|])
  {
  }

  lemma NewcomerReserves(run: seq<Action>, s: State, k: Key) returns (longer: seq<Action>)
    requires Leads(run, s) && AtomicReserve(run) && s.Live(k) == None
    ensures Leads(longer, WithNewcomer(s, k)) && AtomicReserve(longer)
    ensures (Durable(longer) <==> Durable(run)) && (Timely(run) ==> Timely(longer))
  {
    var r := |s.reqs|;
    var q := Req(k, [], Gap, s.now, [], s.bucket);
    var run2 := NewcomerMisses(run, s, k);
    var s2 := s.(reqs := s.reqs + [q]);
    var s3 := s.(kv := s.kv[k := Entry(Inflight, s.now + INFLIGHT_TTL)], reqs := s.reqs + [q.(pc := Reserved)]);
    NewcomerWrites(s, s2, s3, q);
    Then(run2, s2, PutInflight(r, true), s3);
    var run3 := run2 + [PutInflight(r, true)];
    Then(run3, s3, Charge(r, Allowed), WithNewcomer(s, k));
    longer := run3 + [Charge(r, Allowed)];
    if Timely(run) {
      NewcomerInTime(s, s3, q.(pc := Reserved));
      NewcomerInTime(s, WithNewcomer(s, k), q.(pc := Creating));
    }
  }

  /** Without timeliness: the second request reserves when the first record expires, 60 s later. */
  lemma OverrunMakesTwins(k: Key) returns (run: seq<Action>)
    ensures Legal(INITIAL, run) && AtomicReserve(run) && Durable(run) && !Timely(run)
    ensures var s := Exec(INITIAL, run);
            |s.issues| == 2 && s.issues[0].key == s.issues[1].key == k && s.issues[0].at == s.issues[1].at
  {
    run := NewcomerReserves([], INITIAL, k);
    var s1 := WithNewcomer(INITIAL, k);
    var s2 := s1.(now := INFLIGHT_TTL);
    Then(run, s1, Tick(INFLIGHT_TTL), s2);
    run := NewcomerReserves(run + [Tick(INFLIGHT_TTL)], s2, k);
    run := BothCreate(run, WithNewcomer(s2, k), k);
    assert Exec(INITIAL, run).reqs[0].Active();
  }

  lemma BothCreate(run: seq<Action>, s: State, k: Key) returns (longer: seq<Action>)
    requires Leads(run, s) && Durable(run) && AtomicReserve(run) && s.issues == [] && |s.reqs| == 2
    requires s.reqs[0].pc.Creating? && s.reqs[1].pc.Creating? && s.reqs[0].key == s.reqs[1].key == k
    ensures Legal(INITIAL, longer) && Durable(longer) && AtomicReserve(longer)
    ensures var t := Exec(INITIAL, longer);
            && |t.issues| == 2 && t.issues[0].key == t.issues[1].key == k && t.issues[0].at == t.issues[1].at
            && t.now == s.now && |t.reqs| == 2 && t.reqs[0].Active() && t.reqs[0].reservedAt == s.reqs[0].reservedAt
  {
    var s1 := Apply(s, CreateIssue(0, true));
    Then(run, s, CreateIssue(0, true), s1);
    var run1 := run + [CreateIssue(0, true)];
    Then(run1, s1, CreateIssue(1, true), Apply(s1, CreateIssue(1, true)));
    longer := run1 + [CreateIssue(1, true)];
  }

  /** The lone request of `s` creates its issue, but none of the attempts to store the response succeeds. */
  lemma ResponseIsLost(run: seq<Action>, s: State) returns (longer: seq<Action>)
    requires Reaches(run, s) && AtomicReserve(run) && s.issues == [] && |s.reqs| == 1 && s.reqs[0].pc.Creating?
    ensures var q := s.reqs[0];
            Leads(longer, s.(issues := [Issue(q.key, 0, s.now, q.files)], reqs := [q.(pc := Answered(Fresh(0)))]))
    ensures AtomicReserve(longer) && Timely(longer) && !Durable(longer)
  {
    var q := s.reqs[0];
    var t := s.(issues := [Issue(q.key, 0, s.now, q.files)]);
    assert InTime(s);
    Then(run, s, CreateIssue(0, true), t.(reqs := [q.(pc := Caching(0, 0))]));
    longer := run + [CreateIssue(0, true)];
    Then(longer, t.(reqs := [q.(pc := Caching(0, 0))]), PutDone(0, false), t.(reqs := [q.(pc := Caching(0, 1))]));
    longer := longer + [PutDone(0, false)];
    Then(longer, t.(reqs := [q.(pc := Caching(0, 1))]), PutDone(0, false), t.(reqs := [q.(pc := Caching(0, 2))]));
    longer := longer + [PutDone(0, false)];
    var run2 := longer;
    Then(longer, t.(reqs := [q.(pc := Caching(0, 2))]), PutDone(0, false), t.(reqs := [q.(pc := Answered(Fresh(0)))]));
    longer := longer + [PutDone(0, false)];
    assert longer[..|longer| - 1] == run2;
  }

  /** Without durability: the response is lost, the key is free 60 s later and is used for a second issue. */
  lemma LostResponseMakesTwins(k: Key) returns (run: seq<Action>)
    ensures Legal(INITIAL, run) && AtomicReserve(run) && Timely(run) && !Durable(run)
    ensures var s := Exec(INITIAL, run);
            && |s.issues| == 2 && s.issues[0].key == s.issues[1].key == k
            && s.issues[1].at - s.issues[0].at == 60.0
  {
    run := NewcomerReserves([], INITIAL, k);
    var q := Req(k, [], Creating, 0.0, [], {});
    var s1 := WithNewcomer(INITIAL, k);
    assert s1.reqs == [q];
    run := ResponseIsLost(run, s1);
    var s2 := s1.(issues := [Issue(k, 0, 0.0, [])], reqs := [q.(pc := Answered(Fresh(0)))]);
    var s3 := s2.(now := INFLIGHT_TTL);
    Then(run, s2, Tick(INFLIGHT_TTL), s3);
    run := NewcomerReserves(run + [Tick(INFLIGHT_TTL)], s3, k);
    var s4 := WithNewcomer(s3, k);
    Then(run, s4, CreateIssue(1, true), Apply(s4, CreateIssue(1, true)));
    run := run + [CreateIssue(1, true)];
  }
}
