/** What a request is answered, from what was done before it: the last write of its key and the time since. */
module FeedbackLookups {
  import opened Prelude
  import opened FeedbackProtocol
  import opened FeedbackSafety

  /** The time that passes in the run after its first `m` actions. */
  function Elapsed(run: seq<Action>, m: nat): real {
    if |run| <= m then 0.0
    else Elapsed(run[..|run| - 1], m) + if run[|run| - 1].Tick? then run[|run| - 1].dt else 0.0
  }

  /** The action stores something under the key. */
  predicate Writes(s: State, a: Action, k: Key) {
    (a.PutInflight? || a.PutDone?) && a.ok && a.r < |s.reqs| && s.reqs[a.r].key == k
  }

  ghost predicate WritesAt(run: seq<Action>, m: nat, k: Key)
    requires Legal(INITIAL, run)
  {
    m < |run| && Writes(Exec(INITIAL, run), run[m], k)
  }

  ghost predicate LastWrite(run: seq<Action>, m: nat, k: Key)
    requires Legal(INITIAL, run)
  {
    WritesAt(run, m, k) && forall n: nat | m < n :: !WritesAt(run, n, k)
  }

  /** The entry is what the write put there, so long ago. */
  predicate IsRecord(s: State, e: Entry, a: Action, elapsed: real) {
    if a.PutInflight? then e == Entry(Inflight, s.now - elapsed + 60.0)
    else && a.PutDone? && e.value.Done? && e.expiry == s.now - elapsed + 300.0
         && e.value.issue < |s.issues| && s.issues[e.value.issue].creator == a.r
  }

  /** What the store holds under a key is what its last write put there. */
  ghost predicate HoldsLastWrite(run: seq<Action>, k: Key)
    requires Legal(INITIAL, run)
  {
    var s := Exec(INITIAL, run);
    if k in s.kv then exists m: nat :: LastWrite(run, m, k) && IsRecord(s, s.kv[k], run[m], Elapsed(run, m))
    else forall n: nat :: !WritesAt(run, n, k)
  }

  /** A request keeps its key, so that an earlier write stays one, and no other becomes one. */
  lemma StepKeepsWrites(s: State, a: Action, b: Action, k: Key)
    requires Enabled(s, a) && (b.PutInflight? || b.PutDone? ==> b.r < |s.reqs|)
    ensures Writes(Apply(s, a), b, k) <==> Writes(s, b, k)
  {
    StepExtends(s, a);
  }

  lemma {:induction false} RequesterExists(run: seq<Action>, m: nat)
    requires Legal(INITIAL, run) && m < |run| && (run[m].PutInflight? || run[m].PutDone?)
    ensures run[m].r < |Exec(INITIAL, run).reqs|
  {
    var before := run[..|run| - 1];
    StepExtends(Exec(INITIAL, before), run[|run| - 1]);
    if m < |before| {
      RequesterExists(before, m);
    }
  }

  lemma WritesBefore(run: seq<Action>, m: nat, k: Key)
    requires run != [] && Legal(INITIAL, run) && m < |run| - 1
    ensures WritesAt(run, m, k) <==> WritesAt(run[..|run| - 1], m, k)
  {
    var before := run[..|run| - 1];
    if run[m].PutInflight? || run[m].PutDone? {
      RequesterExists(before, m);
    }
    StepKeepsWrites(Exec(INITIAL, before), run[|run| - 1], run[m], k);
  }

  lemma StepKeepsRecord(s: State, a: Action, k: Key, b: Action, elapsed: real)
    requires Enabled(s, a) && !Writes(s, a, k) && k in s.kv && IsRecord(s, s.kv[k], b, elapsed)
    ensures k in Apply(s, a).kv
    ensures IsRecord(Apply(s, a), Apply(s, a).kv[k], b, elapsed + if a.Tick? then a.dt else 0.0)
  {
    StepExtends(s, a);
  }

  /** The last action does not write the key: the entry and its last write are as before. */
  lemma OtherActionKeepsRecord(run: seq<Action>, k: Key)
    requires run != [] && Legal(INITIAL, run) && HoldsLastWrite(run[..|run| - 1], k)
    requires !Writes(Exec(INITIAL, run[..|run| - 1]), run[|run| - 1], k)
    ensures HoldsLastWrite(run, k)
  {
    var before, a := run[..|run| - 1], run[|run| - 1];
    var s := Exec(INITIAL, before);
    SameWrites(run, k);
    if k in s.kv {
      var m: nat :| LastWrite(before, m, k) && IsRecord(s, s.kv[k], before[m], Elapsed(before, m));
      StepKeepsRecord(s, a, k, run[m], Elapsed(before, m));
      assert LastWrite(run, m, k);
    }
  }

  lemma SameWrites(run: seq<Action>, k: Key)
    requires run != [] && Legal(INITIAL, run) && !Writes(Exec(INITIAL, run[..|run| - 1]), run[|run| - 1], k)
    ensures forall n: nat :: WritesAt(run, n, k) <==> WritesAt(run[..|run| - 1], n, k)
  {
    var before := run[..|run| - 1];
    forall n: nat
      ensures WritesAt(run, n, k) <==> WritesAt(before, n, k)
    {
      if n < |before| {
        WritesBefore(run, n, k);
      } else if n == |before| {
        StepKeepsWrites(Exec(INITIAL, before), run[n], run[n], k);
      }
    }
  }

  lemma WriteMakesRecord(s: State, a: Action, k: Key)
    requires Enabled(s, a) && Writes(s, a, k) && ReplyNamesIssue(s, a.r)
    ensures Writes(Apply(s, a), a, k) && k in Apply(s, a).kv
    ensures IsRecord(Apply(s, a), Apply(s, a).kv[k], a, 0.0)
  {
  }

  lemma {:induction false} StoreHoldsLastWrites(run: seq<Action>, k: Key)
    requires Legal(INITIAL, run)
    ensures HoldsLastWrite(run, k)
  {
    if run != [] {
      var before, a := run[..|run| - 1], run[|run| - 1];
      if Writes(Exec(INITIAL, before), a, k) {
        EveryInterleavingIsSafe(before);
        WriteMakesRecord(Exec(INITIAL, before), a, k);
        assert Elapsed(before, |before|) == 0.0 == Elapsed(run, |before|);
        assert LastWrite(run, |before|, k);
      } else {
        StoreHoldsLastWrites(before, k);
        OtherActionKeepsRecord(run, k);
      }
    }
  }

  // What the read of a key answers.

  /** The last write stored the response of issue `i`, less than 300 s ago. */
  ghost predicate LastStored(run: seq<Action>, k: Key, i: nat)
    requires Legal(INITIAL, run)
  {
    exists m: nat :: && LastWrite(run, m, k) && run[m].PutDone? && Elapsed(run, m) < 300.0
                     && i < |Exec(INITIAL, run).issues| && Exec(INITIAL, run).issues[i].creator == run[m].r
  }

  /** The last write was a reservation, less than 60 s ago. */
  ghost predicate LastReserved(run: seq<Action>, k: Key)
    requires Legal(INITIAL, run)
  {
    exists m: nat :: LastWrite(run, m, k) && run[m].PutInflight? && Elapsed(run, m) < 60.0
  }

  lemma OneLastWrite(run: seq<Action>, k: Key, m: nat, n: nat)
    requires Legal(INITIAL, run) && LastWrite(run, m, k) && LastWrite(run, n, k)
    ensures m == n
  {
  }

  lemma OneIssuePerCreator(s: State, i: nat, j: nat)
    requires EffectsAreEarned(s) && i < |s.issues| && j < |s.issues| && s.issues[i].creator == s.issues[j].creator
    ensures i == j
  {
  }

  /** After any run, a read of a key answers with issue `i` if and only if the last write of the key stored the response
      of that issue, less than 300 s ago; with a conflict if and only if it reserved the key, less than 60 s ago; and
      otherwise the request goes on to reserve. */
  lemma LookupAnswersLastWrite(run: seq<Action>, r: nat, i: nat)
    requires Legal(INITIAL, run) && Enabled(Exec(INITIAL, run), Lookup(r, true))
    ensures var k, pc := Exec(INITIAL, run).reqs[r].key, Apply(Exec(INITIAL, run), Lookup(r, true)).reqs[r].pc;
            && (pc == Answered(Replayed(i)) <==> LastStored(run, k, i))
            && (pc == Answered(Conflict) <==> LastReserved(run, k))
            && (pc == Gap <==> !LastReserved(run, k) && forall j :: !LastStored(run, k, j))
  {
    var s := Exec(INITIAL, run);
    var k := s.reqs[r].key;
    StoreHoldsLastWrites(run, k);
    EveryInterleavingIsSafe(run);
    if k in s.kv {
      var m: nat :| LastWrite(run, m, k) && IsRecord(s, s.kv[k], run[m], Elapsed(run, m));
      RecordAnswers(run, k, m);
    }
  }

  lemma RecordAnswers(run: seq<Action>, k: Key, m: nat)
    requires Legal(INITIAL, run) && EffectsAreEarned(Exec(INITIAL, run)) && k in Exec(INITIAL, run).kv
    requires LastWrite(run, m, k) && IsRecord(Exec(INITIAL, run), Exec(INITIAL, run).kv[k], run[m], Elapsed(run, m))
    ensures var e := Exec(INITIAL, run).kv[k];
            && (forall i :: LastStored(run, k, i) <==> e.value == Done(i) && Exec(INITIAL, run).now < e.expiry)
            && (LastReserved(run, k) <==> e.value == Inflight && Exec(INITIAL, run).now < e.expiry)
  {
    var s := Exec(INITIAL, run);
    var e := s.kv[k];
    forall n: nat | LastWrite(run, n, k)
      ensures n == m
    {
      OneLastWrite(run, k, m, n);
    }
    forall i
      ensures LastStored(run, k, i) <==> e.value == Done(i) && s.now < e.expiry
    {
      if LastStored(run, k, i) {
        OneIssuePerCreator(s, i, e.value.issue);
      }
    }
  }

  // Why a request ends as it does.

  /** A call of the request before its issue throws. */
  predicate Throws(a: Action, r: nat) {
    || a == Lookup(r, false) || a == PutInflight(r, false) || a == Charge(r, Error) || a == Head(r, false)
    || a == Store(r, false) || a == CreateIssue(r, false)
  }

  predicate HasThrown(run: seq<Action>, r: nat) {
    exists n | 0 <= n < |run| :: Throws(run[n], r)
  }

  /** Where a request is, given what has happened to it. */
  predicate Explains(pc: Pc, lost: bool, denied: bool, thrown: bool, created: bool) {
    if lost then pc == Answered(Lost)
    else && (pc.Cleaning? || pc == Answered(Failed) <==> thrown)
         && (pc.Caching? || (pc.Answered? && pc.answer.Fresh?) <==> created)
         && (pc == Answered(RateLimited) <==> denied) && pc != Answered(Lost)
  }

  /** The request is where its own actions have brought it. */
  predicate IsExplained(pc: Pc, run: seq<Action>, r: nat) {
    Explains(pc, Crash(r) in run, Charge(r, Denied) in run, HasThrown(run, r), CreateIssue(r, true) in run)
  }

  lemma ExplainedNext(pc: Pc, run: seq<Action>, a: Action, r: nat)
    ensures IsExplained(pc, run + [a], r)
            <==> Explains(pc, Crash(r) in run || a == Crash(r), Charge(r, Denied) in run || a == Charge(r, Denied),
                          HasThrown(run, r) || Throws(a, r), CreateIssue(r, true) in run || a == CreateIssue(r, true))
  {
    var all := run + [a];
    assert all[|run|] == a;
    assert forall n | 0 <= n < |run| :: all[n] == run[n];
  }

  lemma OwnStepExplains(s: State, a: Action, r: nat, lost: bool, denied: bool, thrown: bool, created: bool)
    requires r < |s.reqs| && Explains(s.reqs[r].pc, lost, denied, thrown, created)
    requires Enabled(s, a) && !a.Tick? && !a.Arrive? && a.r == r
    ensures Explains(Apply(s, a).reqs[r].pc, lost || a == Crash(r), denied || a == Charge(r, Denied),
                     thrown || Throws(a, r), created || a == CreateIssue(r, true))
  {
  }

  lemma OthersStay(s: State, a: Action, r: nat)
    requires Enabled(s, a) && r < |Apply(s, a).reqs|
    ensures r < |s.reqs| && (a.Tick? || a.Arrive? || a.r != r) ==> Apply(s, a).reqs[r] == s.reqs[r]
    ensures r >= |s.reqs| ==> a.Arrive? && Apply(s, a).reqs[r].pc == Arrived
  {
  }

  lemma StepIsExplained(s: State, run: seq<Action>, a: Action, r: nat)
    requires Enabled(s, a) && r < |Apply(s, a).reqs|
    requires if r < |s.reqs| then IsExplained(s.reqs[r].pc, run, r) else IsExplained(Arrived, run, r)
    ensures IsExplained(Apply(s, a).reqs[r].pc, run + [a], r)
  {
    OthersStay(s, a, r);
    ExplainedNext(Apply(s, a).reqs[r].pc, run, a, r);
    if r < |s.reqs| && !a.Tick? && !a.Arrive? && a.r == r {
      OwnStepExplains(s, a, r, Crash(r) in run, Charge(r, Denied) in run, HasThrown(run, r),
                      CreateIssue(r, true) in run);
    }
  }

  lemma {:induction false} NotYetMentioned(run: seq<Action>, r: nat)
    requires Legal(INITIAL, run) && |Exec(INITIAL, run).reqs| <= r
    ensures forall a | a in run :: a.Tick? || a.Arrive? || a.r != r
  {
    if run != [] {
      StepExtends(Exec(INITIAL, run[..|run| - 1]), run[|run| - 1]);
      NotYetMentioned(run[..|run| - 1], r);
    }
  }

  /** In every run: a request fails if and only if one of its calls threw before it got an issue, is limited if and only
      if the limiter denied it, has an issue to reply with if and only if it created one, and is lost if and only if
      the isolate stopped. */
  lemma {:induction false} AnswersAreExplained(run: seq<Action>, r: nat)
    requires Legal(INITIAL, run) && r < |Exec(INITIAL, run).reqs|
    ensures IsExplained(Exec(INITIAL, run).reqs[r].pc, run, r)
  {
    var before, a := run[..|run| - 1], run[|run| - 1];
    var s := Exec(INITIAL, before);
    assert run == before + [a];
    if r < |s.reqs| {
      AnswersAreExplained(before, r);
    } else {
      NotYetMentioned(before, r);
    }
    StepIsExplained(s, before, a, r);
  }
}
