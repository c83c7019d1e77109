/** What holds in every interleaving, although reading and writing a reservation are separate steps. */
module FeedbackSafety {
  import opened Prelude
  import opened FeedbackProtocol

  /** Issue `i` exists and was created for key `k`. */
  predicate Names(s: State, i: nat, k: Key) {
    i < |s.issues| && s.issues[i].key == k
  }

  predicate NamesOwn(s: State, i: nat, r: nat)
    requires r < |s.reqs|
  {
    Names(s, i, s.reqs[r].key) && s.issues[i].creator == r
  }

  /** Every stored response names an issue created for the key it is stored under. */
  ghost predicate RecordsNameIssues(s: State) {
    forall k | k in s.kv :: RecordNamesIssue(s, k)
  }

  predicate RecordNamesIssue(s: State, k: Key) {
    k in s.kv && s.kv[k].value.Done? ==> Names(s, s.kv[k].value.issue, k)
  }

  predicate ReplyNamesIssue(s: State, r: nat)
    requires r < |s.reqs|
  {
    match s.reqs[r].pc
    case Caching(i, _) => NamesOwn(s, i, r)
    case Answered(Fresh(i)) => NamesOwn(s, i, r)
    case Answered(Replayed(i)) => Names(s, i, s.reqs[r].key)
    case _ => true
  }

  /** Every 200 reply names an issue created for the key of the request; a fresh one, by the request. */
  ghost predicate RepliesNameIssues(s: State) {
    forall r | 0 <= r < |s.reqs| :: ReplyNamesIssue(s, r)
  }

  predicate MayHaveIssue(s: State, r: nat) {
    && r < |s.reqs|
    && (|| s.reqs[r].pc.Caching?
        || (s.reqs[r].pc.Answered? && (s.reqs[r].pc.answer.Fresh? || s.reqs[r].pc.answer.Lost?)))
  }

  /** The request may have been charged by the limiter... */
  predicate MayBeCharged(pc: Pc) {
    match pc
    case Arrived | Gap | Reserved => false
    case Answered(answer) => answer.Fresh? || answer.Failed? || answer.Lost?
    case _ => true
  }

  /** ...and must have been. */
  predicate MustBeCharged(pc: Pc) {
    match pc
    case Arrived | Gap | Reserved => false
    case Answered(answer) => answer.Fresh?
    case _ => true
  }

  predicate SlotIsSpent(s: State, r: nat) {
    && (r in s.slots ==> r < |s.reqs| && MayBeCharged(s.reqs[r].pc))
    && (r < |s.reqs| && MustBeCharged(s.reqs[r].pc) ==> r in s.slots)
  }

  /** A slot is used once by a request, and exactly by those that the limiter let through. */
  ghost predicate SlotsAreSpent(s: State) {
    Distinct(s.slots) && forall r :: SlotIsSpent(s, r)
  }

  /** Only requests that used a slot have stored anything or created an issue, and an issue each at most. */
  ghost predicate EffectsAreEarned(s: State) {
    && SlotsAreSpent(s)
    && (forall p | p in s.puts :: p.0 in s.slots)
    && (forall i | 0 <= i < |s.issues| :: s.issues[i].creator in s.slots && MayHaveIssue(s, s.issues[i].creator))
    && (forall i, j | 0 <= i < j < |s.issues| :: s.issues[i].creator != s.issues[j].creator)
  }

  ghost predicate Safe(s: State) {
    RecordsNameIssues(s) && RepliesNameIssues(s) && EffectsAreEarned(s)
  }

  /** Issues are never withdrawn and replies never change. */
  lemma StepExtends(s: State, a: Action)
    requires Enabled(s, a)
    ensures s.issues <= Apply(s, a).issues
    ensures |s.reqs| <= |Apply(s, a).reqs|
    ensures forall r | 0 <= r < |s.reqs| :: Apply(s, a).reqs[r].key == s.reqs[r].key
    ensures forall r | 0 <= r < |s.reqs| && s.reqs[r].pc.Answered? :: Apply(s, a).reqs[r] == s.reqs[r]
  {
  }

  lemma StepKeepsReply(s: State, a: Action, r: nat)
    requires Enabled(s, a) && r < |Apply(s, a).reqs|
    requires r < |s.reqs| ==> ReplyNamesIssue(s, r)
    requires r < |s.reqs| ==> RecordNamesIssue(s, s.reqs[r].key)
    ensures ReplyNamesIssue(Apply(s, a), r)
  {
    StepExtends(s, a);
    if r < |s.reqs| && Apply(s, a).reqs[r].pc != s.reqs[r].pc {
      match a
      case Lookup(_, _) =>
      case CreateIssue(_, _) =>
      case PutDone(_, _) =>
      case _ =>
    }
  }

  lemma StepKeepsRecord(s: State, a: Action, k: Key)
    requires Enabled(s, a) && RecordNamesIssue(s, k)
    requires a.PutDone? ==> ReplyNamesIssue(s, a.r)
    ensures RecordNamesIssue(Apply(s, a), k)
  {
    StepExtends(s, a);
  }

  lemma StepKeepsRecords(s: State, a: Action)
    requires Enabled(s, a) && Safe(s)
    ensures RecordsNameIssues(Apply(s, a)) && RepliesNameIssues(Apply(s, a))
  {
    forall r | 0 <= r < |Apply(s, a).reqs|
      ensures ReplyNamesIssue(Apply(s, a), r)
    {
      StepKeepsReply(s, a, r);
    }
    forall k
      ensures RecordNamesIssue(Apply(s, a), k)
    {
      StepKeepsRecord(s, a, k);
    }
  }

  lemma StepSpendsSlot(s: State, a: Action, r: nat)
    requires Enabled(s, a) && SlotIsSpent(s, r)
    ensures SlotIsSpent(Apply(s, a), r)
  {
    if a.Charge? && a.verdict.Allowed? {
      assert Apply(s, a).slots[|s.slots|] == a.r;
    }
  }

  lemma StepKeepsSlots(s: State, a: Action)
    requires Enabled(s, a) && SlotsAreSpent(s)
    ensures SlotsAreSpent(Apply(s, a)) && s.slots <= Apply(s, a).slots
  {
    forall r
      ensures SlotIsSpent(Apply(s, a), r)
    {
      StepSpendsSlot(s, a, r);
    }
    if a.Charge? {
      assert SlotIsSpent(s, a.r);
    }
  }

  lemma StepKeepsEffects(s: State, a: Action)
    requires Enabled(s, a) && Safe(s)
    ensures EffectsAreEarned(Apply(s, a))
  {
    var t := Apply(s, a);
    StepExtends(s, a);
    StepKeepsSlots(s, a);
    if a.Store? {
      assert SlotIsSpent(s, a.r);
    }
    forall i | 0 <= i < |t.issues|
      ensures t.issues[i].creator in t.slots && MayHaveIssue(t, t.issues[i].creator)
    {
      StepKeepsCreator(s, a, i);
    }
  }

  lemma StepKeepsCreator(s: State, a: Action, i: nat)
    requires Enabled(s, a) && EffectsAreEarned(s) && i < |Apply(s, a).issues|
    ensures var t := Apply(s, a); t.issues[i].creator in t.slots && MayHaveIssue(t, t.issues[i].creator)
  {
    if i < |s.issues| {
      assert s.issues[i].creator in s.slots && MayHaveIssue(s, s.issues[i].creator);
    } else {
      assert SlotIsSpent(s, a.r);
    }
  }

  /** Safety over every run of any number of requests, in any interleaving and with any failures. */
  lemma {:induction false} EveryInterleavingIsSafe(run: seq<Action>)
    requires Legal(INITIAL, run)
    ensures Safe(Exec(INITIAL, run))
  {
    if run != [] {
      var before := run[..|run| - 1];
      EveryInterleavingIsSafe(before);
      StepKeepsRecords(Exec(INITIAL, before), run[|run| - 1]);
      StepKeepsEffects(Exec(INITIAL, before), run[|run| - 1]);
    }
  }

  /** A request answered from the store, told that a duplicate is in flight, or turned away by the limiter
      has created no issue, stored nothing and used no rate-limit slot. */
  lemma DuplicatesLeaveNoTrace(run: seq<Action>, r: nat)
    requires Legal(INITIAL, run) && r < |Exec(INITIAL, run).reqs|
    requires var pc := Exec(INITIAL, run).reqs[r].pc;
             pc.Answered? && (pc.answer.Replayed? || pc.answer.Conflict? || pc.answer.RateLimited?)
    ensures var s := Exec(INITIAL, run);
            && r !in s.slots
            && (forall p | p in s.puts :: p.0 != r)
            && (forall i | 0 <= i < |s.issues| :: s.issues[i].creator != r)
  {
    EveryInterleavingIsSafe(run);
    assert SlotIsSpent(Exec(INITIAL, run), r);
  }
}
