/** Rollback when requests overlap, against the comment in feedback-worker/src/index.ts:342-344: by exactly which
    requests an object can still be deleted, and a run in which an issue loses its attachment. */
module FeedbackRollback {
  import opened Prelude
  import opened FeedbackProtocol
  import opened FeedbackAttachments

  /** The request has created the object, or is about to, and has neither got an issue nor passed it in its cleanup. */
  predicate MayRollBack(q: Req, o: Obj) {
    && !q.pc.Answered? && !q.pc.Caching?
    && (HasCreated(q, o) || (q.pc.Storing? && |q.uploads| < |q.files| && q.files[|q.uploads|] == o))
  }

  predicate HasCreated(q: Req, o: Obj) {
    exists x | Remaining(q) <= x < |q.uploads| :: q.uploads[x] == Upload(o, true)
  }

  ghost predicate CanLose(s: State, o: Obj) {
    exists run :: Legal(s, run) && o !in Exec(s, run).bucket
  }

  predicate IsThreatened(s: State, o: Obj) {
    exists r | 0 <= r < |s.reqs| :: MayRollBack(s.reqs[r], o)
  }

  // Without such a request the object stays.

  lemma UploadMakesNoThreat(s: State, a: Action, o: Obj, r: nat)
    requires (a.Head? || a.Store?) && Enabled(s, a) && o in s.bucket && r < |s.reqs| && !MayRollBack(s.reqs[r], o)
    ensures !MayRollBack(Apply(s, a).reqs[r], o)
  {
    var q, q' := s.reqs[r], Apply(s, a).reqs[r];
    assert forall x | 0 <= x < |q.uploads| :: q'.uploads[x] == q.uploads[x];
  }

  lemma StepMakesNoThreat(s: State, a: Action, o: Obj, r: nat)
    requires Enabled(s, a) && o in s.bucket && r < |Apply(s, a).reqs|
    requires r < |s.reqs| ==> !MayRollBack(s.reqs[r], o)
    ensures !MayRollBack(Apply(s, a).reqs[r], o)
  {
    if a.Head? || a.Store? {
      UploadMakesNoThreat(s, a, o, r);
    } else if r < |s.reqs| {
      assert Apply(s, a).reqs[r].uploads == s.reqs[r].uploads;
    }
  }

  lemma StepKeepsObject(s: State, a: Action, o: Obj)
    requires Enabled(s, a) && o in s.bucket && !IsThreatened(s, o)
    ensures o in Apply(s, a).bucket && !IsThreatened(Apply(s, a), o)
  {
    forall r | 0 <= r < |Apply(s, a).reqs|
      ensures !MayRollBack(Apply(s, a).reqs[r], o)
    {
      StepMakesNoThreat(s, a, o, r);
    }
    if a.Delete? {
      assert !MayRollBack(s.reqs[a.r], o);
    }
  }

  lemma {:induction false} UnthreatenedStays(s: State, run: seq<Action>, o: Obj)
    requires Legal(s, run) && o in s.bucket && !IsThreatened(s, o)
    ensures o in Exec(s, run).bucket && !IsThreatened(Exec(s, run), o)
  {
    if run != [] {
      UnthreatenedStays(s, run[..|run| - 1], o);
      StepKeepsObject(Exec(s, run[..|run| - 1]), run[|run| - 1], o);
    }
  }

  // With one, it can go.

  /** What holds of every request in every run. */
  predicate InShape(q: Req) {
    && |q.uploads| <= |q.files|
    && (q.pc.Arrived? || q.pc.Gap? || q.pc.Reserved? ==> q.uploads == [])
    && (q.pc.Heading? || q.pc.Storing? ==> |q.uploads| < |q.files|)
  }

  lemma StepKeepsShape(s: State, a: Action, r: nat)
    requires Enabled(s, a) && r < |Apply(s, a).reqs| && (r < |s.reqs| ==> InShape(s.reqs[r]))
    ensures InShape(Apply(s, a).reqs[r])
  {
  }

  lemma {:induction false} RunKeepsShape(run: seq<Action>, r: nat)
    requires Legal(INITIAL, run) && r < |Exec(INITIAL, run).reqs|
    ensures InShape(Exec(INITIAL, run).reqs[r])
  {
    var before := run[..|run| - 1];
    if r < |Exec(INITIAL, before).reqs| {
      RunKeepsShape(before, r);
    }
    StepKeepsShape(Exec(INITIAL, before), run[|run| - 1], r);
  }

  lemma StepThen(s: State, a: Action, rest: seq<Action>)
    requires Enabled(s, a) && Legal(Apply(s, a), rest)
    ensures Legal(s, [a] + rest) && Exec(s, [a] + rest) == Exec(Apply(s, a), rest)
  {
    assert [a][..0] == [];
    assert Legal(s, []) && Exec(s, []) == s;
    ExecConcat(s, [a], rest);
  }

  lemma {:induction false} CleanupDeletes(s: State, r: nat, x: nat, o: Obj) returns (run: seq<Action>)
    requires r < |s.reqs| && s.reqs[r].pc.Cleaning? && s.reqs[r].pc.next <= x < |s.reqs[r].uploads|
    requires s.reqs[r].uploads[x] == Upload(o, true)
    ensures Legal(s, run) && o !in Exec(s, run).bucket
    decreases x - s.reqs[r].pc.next
  {
    var a := Delete(r, s.reqs[r].pc.next == x);
    var t := Apply(s, a);
    run := [];
    if s.reqs[r].pc.next < x {
      run := CleanupDeletes(t, r, x, o);
    }
    StepThen(s, a, run);
    run := [a] + run;
  }

  /** Failing at its next call takes the request into its cleanup. */
  lemma FailingDeletes(s: State, r: nat, x: nat, o: Obj) returns (run: seq<Action>)
    requires r < |s.reqs| && InShape(s.reqs[r])
    requires s.reqs[r].pc.Heading? || s.reqs[r].pc.Storing? || s.reqs[r].pc.Creating?
    requires x < |s.reqs[r].uploads| && s.reqs[r].uploads[x] == Upload(o, true)
    ensures Legal(s, run) && o !in Exec(s, run).bucket
  {
    var a := match s.reqs[r].pc
             case Heading => Head(r, false)
             case Storing => Store(r, false)
             case _ => CreateIssue(r, false);
    run := CleanupDeletes(Apply(s, a), r, x, o);
    StepThen(s, a, run);
    run := [a] + run;
  }

  lemma StoringDeletes(s: State, r: nat, o: Obj) returns (run: seq<Action>)
    requires r < |s.reqs| && s.reqs[r].pc.Storing?
    requires |s.reqs[r].uploads| < |s.reqs[r].files| && s.reqs[r].files[|s.reqs[r].uploads|] == o
    ensures Legal(s, run) && o !in Exec(s, run).bucket
  {
    var a := Store(r, true);
    run := FailingDeletes(Apply(s, a), r, |s.reqs[r].uploads|, o);
    StepThen(s, a, run);
    run := [a] + run;
  }

  lemma ThreatDeletes(s: State, r: nat, o: Obj) returns (run: seq<Action>)
    requires r < |s.reqs| && InShape(s.reqs[r]) && MayRollBack(s.reqs[r], o)
    ensures Legal(s, run) && o !in Exec(s, run).bucket
  {
    var q := s.reqs[r];
    if HasCreated(q, o) {
      var x :| Remaining(q) <= x < |q.uploads| && q.uploads[x] == Upload(o, true);
      if q.pc.Cleaning? {
        run := CleanupDeletes(s, r, x, o);
      } else {
        run := FailingDeletes(s, r, x, o);
      }
    } else {
      run := StoringDeletes(s, r, o);
    }
  }

  /** From a state of any run, some continuation loses an object if and only if a request that may still roll it back is
      on its way, whoever refers to the object. */
  lemma LostExactlyByRollback(run: seq<Action>, o: Obj)
    requires Legal(INITIAL, run) && o in Exec(INITIAL, run).bucket
    ensures CanLose(Exec(INITIAL, run), o) <==> IsThreatened(Exec(INITIAL, run), o)
  {
    var s := Exec(INITIAL, run);
    if IsThreatened(s, o) {
      var r :| 0 <= r < |s.reqs| && MayRollBack(s.reqs[r], o);
      RunKeepsShape(run, r);
      var more := ThreatDeletes(s, r, o);
    } else if more :| Legal(s, more) && o !in Exec(s, more).bucket {
      UnthreatenedStays(s, more, o);
      assert false;
    }
  }

  // Overlapping requests can lose an attachment.

  /** One request stores `o`, another finds it there and creates an issue, the first fails and deletes it. */
  function First(pc: Pc, us: seq<Upload>, o: Obj): Req {
    Req("a", [o], pc, 0.0, us, {})
  }

  function Second(pc: Pc, us: seq<Upload>, o: Obj): Req {
    Req("b", [o], pc, 0.0, us, {o})
  }

  function Scene(kv: map<Key, Entry>, bucket: set<Obj>, issues: seq<Issue>, reqs: seq<Req>, slots: seq<nat>,
                 puts: seq<(nat, Obj)>): State {
    State(0.0, kv, bucket, issues, reqs, slots, puts)
  }

  lemma FirstCharged(o: Obj) returns (run: seq<Action>)
    ensures Leads(run, Scene(map["a" := HELD], {}, [], [First(Heading, [], o)], [0], []))
  {
    run := [];
    var s1 := Scene(map[], {}, [], [First(Arrived, [], o)], [], []);
    Extend(run, INITIAL, Arrive("a", [o]), s1);
    run := run + [Arrive("a", [o])];
    var s2 := Scene(map[], {}, [], [First(Gap, [], o)], [], []);
    Extend(run, s1, Lookup(0, true), s2);
    run := run + [Lookup(0, true)];
    var s3 := Scene(map["a" := HELD], {}, [], [First(Reserved, [], o)], [], []);
    Extend(run, s2, PutInflight(0, true), s3);
    run := run + [PutInflight(0, true)];
    Extend(run, s3, Charge(0, Allowed), Scene(map["a" := HELD], {}, [], [First(Heading, [], o)], [0], []));
    run := run + [Charge(0, Allowed)];
  }

  lemma FirstStores(o: Obj) returns (run: seq<Action>)
    ensures Leads(run, Scene(map["a" := HELD], {o}, [], [First(Creating, [Upload(o, true)], o)], [0], [(0, o)]))
  {
    run := FirstCharged(o);
    var kv := map["a" := HELD];
    var s1 := Scene(kv, {}, [], [First(Storing, [], o)], [0], []);
    Extend(run, Scene(kv, {}, [], [First(Heading, [], o)], [0], []), Head(0, true), s1);
    run := run + [Head(0, true)];
    assert Uploaded(First(Storing, [], o), true) == First(Creating, [Upload(o, true)], o);
    Extend(run, s1, Store(0, true), Scene(kv, {o}, [], [First(Creating, [Upload(o, true)], o)], [0], [(0, o)]));
    run := run + [Store(0, true)];
  }

  lemma SecondReserves(o: Obj) returns (run: seq<Action>)
    ensures Leads(run, Scene(map["a" := HELD, "b" := HELD], {o}, [],
                             [First(Creating, [Upload(o, true)], o), Second(Reserved, [], o)], [0], [(0, o)]))
  {
    run := FirstStores(o);
    var kv := map["a" := HELD];
    var q := First(Creating, [Upload(o, true)], o);
    var s1 := Scene(kv, {o}, [], [q, Second(Arrived, [], o)], [0], [(0, o)]);
    Extend(run, Scene(kv, {o}, [], [q], [0], [(0, o)]), Arrive("b", [o]), s1);
    run := run + [Arrive("b", [o])];
    var s2 := Scene(kv, {o}, [], [q, Second(Gap, [], o)], [0], [(0, o)]);
    Extend(run, s1, Lookup(1, true), s2);
    run := run + [Lookup(1, true)];
    Extend(run, s2, PutInflight(1, true), Scene(kv["b" := HELD], {o}, [], [q, Second(Reserved, [], o)], [0], [(0, o)]));
    run := run + [PutInflight(1, true)];
  }

  lemma SecondCreates(o: Obj) returns (run: seq<Action>)
    ensures Leads(run, Scene(map["a" := HELD, "b" := HELD], {o}, [Issue("b", 1, 0.0, [o])],
                             [First(Creating, [Upload(o, true)], o), Second(Caching(0, 0), [Upload(o, false)], o)],
                             [0, 1], [(0, o)]))
  {
    run := SecondReserves(o);
    var kv := map["a" := HELD, "b" := HELD];
    var q := First(Creating, [Upload(o, true)], o);
    var s0 := Scene(kv, {o}, [], [q, Second(Reserved, [], o)], [0], [(0, o)]);
    var s1 := Scene(kv, {o}, [], [q, Second(Heading, [], o)], [0, 1], [(0, o)]);
    Extend(run, s0, Charge(1, Allowed), s1);
    run := run + [Charge(1, Allowed)];
    var s2 := Scene(kv, {o}, [], [q, Second(Creating, [Upload(o, false)], o)], [0, 1], [(0, o)]);
    assert Uploaded(Second(Heading, [], o), false) == Second(Creating, [Upload(o, false)], o);
    Extend(run, s1, Head(1, true), s2);
    run := run + [Head(1, true)];
    Extend(run, s2, CreateIssue(1, true),
           Scene(kv, {o}, [Issue("b", 1, 0.0, [o])], [q, Second(Caching(0, 0), [Upload(o, false)], o)], [0, 1],
                 [(0, o)]));
    run := run + [CreateIssue(1, true)];
  }

  /** The attachment of the second request's issue is gone: `ReferencedStays` needs requests not to overlap. */
  lemma OverlapLosesAttachment(o: Obj) returns (run: seq<Action>)
    ensures Legal(INITIAL, run)
    ensures |Exec(INITIAL, run).issues| == 1 && o in Exec(INITIAL, run).issues[0].files
    ensures o !in Exec(INITIAL, run).bucket
  {
    run := SecondCreates(o);
    var kv := map["a" := HELD, "b" := HELD];
    var q, q' := First(Creating, [Upload(o, true)], o), Second(Caching(0, 0), [Upload(o, false)], o);
    var e := Issue("b", 1, 0.0, [o]);
    var s1 := Scene(kv, {o}, [e], [First(Cleaning(0), [Upload(o, true)], o), q'], [0, 1], [(0, o)]);
    Extend(run, Scene(kv, {o}, [e], [q, q'], [0, 1], [(0, o)]), CreateIssue(0, false), s1);
    run := run + [CreateIssue(0, false)];
    Extend(run, s1, Delete(0, true), Apply(s1, Delete(0, true)));
    run := run + [Delete(0, true)];
  }
}
