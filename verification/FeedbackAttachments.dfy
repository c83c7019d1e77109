/** Attachments and their rollback when requests do not overlap: no attachment of an issue is ever lost, whatever
    crashes or fails; a request leaves no trace in the bucket if its own deletions succeed; and if all do, the bucket
    holds exactly the attachments of the issues created. */
module FeedbackAttachments {
  import opened Prelude
  import opened FeedbackProtocol

  ghost predicate OneAtATime(s: State) {
    forall r, r' | 0 <= r < r' < |s.reqs| :: s.reqs[r].pc.Answered? || s.reqs[r'].pc.Answered?
  }

  /** Requests run one after another; any of them may crash and any deletion fail. */
  ghost predicate NoOverlap(run: seq<Action>)
    requires Legal(INITIAL, run)
  {
    OneAtATime(Exec(INITIAL, run)) && (run != [] ==> NoOverlap(run[..|run| - 1]))
  }

  /** Request `r` is not lost and its own deletions succeed. */
  predicate Definite(a: Action, r: nat) {
    a != Crash(r) && (a.Delete? && a.r == r ==> a.ok)
  }

  ghost predicate AlwaysDefinite(run: seq<Action>, r: nat) {
    forall n | 0 <= n < |run| :: Definite(run[n], r)
  }

  /** The attachments of all issues. */
  function Referenced(issues: seq<Issue>): set<Obj> {
    set i, o | 0 <= i < |issues| && o in issues[i].files :: o
  }

  /** The objects created by the uploads from `j` on. */
  function CreatedFrom(us: seq<Upload>, j: nat): set<Obj> {
    set x | j <= x < |us| && us[x].created :: us[x].obj
  }

  /** The uploads that a cleanup has not yet passed. */
  function Remaining(q: Req): nat {
    if q.pc.Cleaning? then q.pc.next else 0
  }

  ghost predicate UploadsOk(q: Req) {
    && |q.uploads| <= |q.files|
    && (forall x | 0 <= x < |q.uploads| :: q.uploads[x].obj == q.files[x])
    && (forall x, y | 0 <= x < y < |q.uploads| && q.uploads[x].created && q.uploads[y].created ::
          q.uploads[x].obj != q.uploads[y].obj)
    && (forall x | 0 <= x < |q.uploads| && q.uploads[x].created :: q.uploads[x].obj !in q.found)
    && (q.pc.Arrived? || q.pc.Gap? || q.pc.Reserved? ==> q.uploads == [])
    && (q.pc.Heading? || q.pc.Storing? ==> |q.uploads| < |q.files|)
    && (q.pc.Creating? || q.pc.Caching? ==> |q.uploads| == |q.files|)
    && (q.pc.Cleaning? ==> q.pc.next < |q.uploads|)
  }

  /** What a request in progress has done to the bucket, until it cleans up. */
  ghost predicate InProgress(s: State, q: Req) {
    && UploadsOk(q)
    && (q.pc.Storing? ==> q.files[|q.uploads|] !in s.bucket)
    && (!q.pc.Cleaning? ==>
          && s.bucket == q.found + CreatedFrom(q.uploads, 0)
          && forall x | 0 <= x < |q.uploads| :: q.uploads[x].obj in s.bucket)
  }

  /** While cleaning up, what is left is still to be deleted. */
  ghost predicate Restoring(s: State, q: Req) {
    q.pc.Cleaning? ==> s.bucket == q.found + CreatedFrom(q.uploads, q.pc.next)
  }

  /** No issue refers to what a cleanup may still delete. */
  ghost predicate Unreferenced(s: State, q: Req) {
    !q.pc.Caching? ==> CreatedFrom(q.uploads, Remaining(q)) !! Referenced(s.issues)
  }

  /** What a request that has replied leaves behind. */
  predicate Restored(s: State, q: Req) {
    q.pc.Answered? && s.bucket == q.found + if q.pc.answer.Fresh? then (set o | o in q.files) else {}
  }

  lemma ReferencedSnoc(issues: seq<Issue>, e: Issue)
    ensures Referenced(issues + [e]) == Referenced(issues) + (set o | o in e.files)
  {
    var all := issues + [e];
    forall o | o in Referenced(issues) + (set o | o in e.files)
      ensures o in Referenced(all)
    {
      if o in Referenced(issues) {
        var i :| 0 <= i < |issues| && o in issues[i].files;
        assert all[i] == issues[i];
      } else {
        assert all[|issues|] == e;
      }
    }
  }

  lemma CreatedSnoc(us: seq<Upload>, u: Upload)
    ensures CreatedFrom(us + [u], 0) == CreatedFrom(us, 0) + (if u.created then {u.obj} else {})
  {
    var all := us + [u];
    forall o | o in CreatedFrom(us, 0)
      ensures o in CreatedFrom(all, 0)
    {
      var x :| 0 <= x < |us| && us[x].created && us[x].obj == o;
      assert all[x] == us[x];
    }
    assert all[|us|] == u;
  }

  lemma CreatedNext(us: seq<Upload>, j: nat)
    requires j < |us|
    ensures CreatedFrom(us, j) == CreatedFrom(us, j + 1) + (if us[j].created then {us[j].obj} else {})
  {
  }

  /** An uploaded request has put exactly its files into the bucket. */
  lemma FilesAreIn(s: State, q: Req)
    requires InProgress(s, q) && (q.pc.Creating? || q.pc.Caching?)
    ensures s.bucket == q.found + set o | o in q.files
  {
    assert forall x | 0 <= x < |q.files| :: q.uploads[x].obj == q.files[x];
    assert CreatedFrom(q.uploads, 0) <= set o | o in q.files;
  }

  // One step of the request in progress.

  predicate OwnStep(s: State, a: Action, r: nat) {
    && r < |s.reqs| && !s.reqs[r].pc.Answered? && Enabled(s, a)
    && !a.Tick? && !a.Arrive? && a.r == r
  }

  lemma UploadedOk(q: Req, created: bool, bucket: set<Obj>)
    requires UploadsOk(q) && |q.uploads| < |q.files| && (q.pc.Heading? || q.pc.Storing?)
    requires bucket == q.found + CreatedFrom(q.uploads, 0)
    requires created <==> q.files[|q.uploads|] !in bucket
    ensures UploadsOk(Uploaded(q, created))
    ensures CreatedFrom(Uploaded(q, created).uploads, 0)
            == CreatedFrom(q.uploads, 0) + (if created then {q.files[|q.uploads|]} else {})
  {
    CreatedSnoc(q.uploads, Upload(q.files[|q.uploads|], created));
    assert forall x | 0 <= x < |q.uploads| && q.uploads[x].created :: q.uploads[x].obj in CreatedFrom(q.uploads, 0);
  }

  lemma UploadKeepsProgress(s: State, a: Action, r: nat)
    requires OwnStep(s, a, r) && InProgress(s, s.reqs[r]) && (a.Head? || a.Store?)
    ensures !Apply(s, a).reqs[r].pc.Answered? ==> InProgress(Apply(s, a), Apply(s, a).reqs[r])
  {
    var q := s.reqs[r];
    var q' := Apply(s, a).reqs[r];
    if q'.uploads != q.uploads {
      UploadedOk(q, a.Store?, s.bucket);
      assert q' == Uploaded(q, a.Store?);
    }
  }

  lemma StepKeepsProgress(s: State, a: Action, r: nat)
    requires OwnStep(s, a, r) && InProgress(s, s.reqs[r])
    ensures !Apply(s, a).reqs[r].pc.Answered? ==> InProgress(Apply(s, a), Apply(s, a).reqs[r])
    ensures Apply(s, a).reqs[r].found == s.reqs[r].found && Apply(s, a).reqs[r].files == s.reqs[r].files
  {
    if a.Head? || a.Store? {
      UploadKeepsProgress(s, a, r);
    }
  }

  lemma StepRestores(s: State, a: Action, r: nat)
    requires OwnStep(s, a, r) && Definite(a, r) && InProgress(s, s.reqs[r]) && Restoring(s, s.reqs[r])
    ensures var q := Apply(s, a).reqs[r];
            if q.pc.Answered? then Restored(Apply(s, a), q) else Restoring(Apply(s, a), q)
  {
    var q := s.reqs[r];
    if a.Delete? {
      CreatedNext(q.uploads, q.pc.next);
    } else if a.PutDone? {
      FilesAreIn(s, q);
    }
  }

  lemma StepKeepsReferenced(s: State, a: Action, r: nat)
    requires OwnStep(s, a, r) && InProgress(s, s.reqs[r]) && Unreferenced(s, s.reqs[r])
    requires Referenced(s.issues) <= s.bucket
    ensures Referenced(Apply(s, a).issues) <= Apply(s, a).bucket
    ensures !Apply(s, a).reqs[r].pc.Answered? ==> Unreferenced(Apply(s, a), Apply(s, a).reqs[r])
  {
    var q := s.reqs[r];
    if a.Delete? {
      CreatedNext(q.uploads, q.pc.next);
    } else if a.CreateIssue? {
      FilesAreIn(s, q);
      ReferencedSnoc(s.issues, Issue(q.key, r, s.now, q.files));
    } else if (a.Head? || a.Store?) && a.ok && |q.uploads| < |q.files| {
      CreatedSnoc(q.uploads, Upload(q.files[|q.uploads|], a.Store?));
    }
  }

  // Whole runs.

  /** Everything but the clock stands still unless the request in progress takes a step. */
  lemma OthersStand(s: State, a: Action, r: nat)
    requires Enabled(s, a) && OneAtATime(s) && OneAtATime(Apply(s, a))
    requires r < |s.reqs| && !s.reqs[r].pc.Answered? && !OwnStep(s, a, r)
    ensures a.Tick? && Apply(s, a) == s.(now := s.now + a.dt)
  {
    if a.Arrive? {
      ArrivalsOverlap(s, a, r);
    }
  }

  lemma ArrivalsOverlap(s: State, a: Action, r: nat)
    requires Enabled(s, a) && a.Arrive? && r < |s.reqs| && !s.reqs[r].pc.Answered?
    ensures !OneAtATime(Apply(s, a))
  {
    var t := Apply(s, a);
    assert t.reqs[|s.reqs|].pc.Arrived? && t.reqs[r] == s.reqs[r];
  }

  lemma {:induction false} RunKeepsProgress(run: seq<Action>, r: nat)
    requires Legal(INITIAL, run) && NoOverlap(run) && r < |Exec(INITIAL, run).reqs|
    ensures var s := Exec(INITIAL, run); !s.reqs[r].pc.Answered? ==> InProgress(s, s.reqs[r])
  {
    var before, a := run[..|run| - 1], run[|run| - 1];
    var s := Exec(INITIAL, before);
    if r < |s.reqs| {
      RunKeepsProgress(before, r);
      if OwnStep(s, a, r) {
        StepKeepsProgress(s, a, r);
      } else if !s.reqs[r].pc.Answered? {
        OthersStand(s, a, r);
      }
    }
  }

  lemma {:induction false} RunRestores(run: seq<Action>, r: nat)
    requires Legal(INITIAL, run) && NoOverlap(run) && AlwaysDefinite(run, r) && r < |Exec(INITIAL, run).reqs|
    ensures var s := Exec(INITIAL, run); !s.reqs[r].pc.Answered? ==> Restoring(s, s.reqs[r])
  {
    var before, a := run[..|run| - 1], run[|run| - 1];
    var s := Exec(INITIAL, before);
    if r < |s.reqs| {
      RunRestores(before, r);
      RunKeepsProgress(before, r);
      if OwnStep(s, a, r) {
        StepRestores(s, a, r);
      } else if !s.reqs[r].pc.Answered? {
        OthersStand(s, a, r);
      }
    }
  }

  /** A request that is not lost and whose own deletions succeed leaves the bucket as it found it, plus its attachments
      if it got an issue; earlier requests may have crashed and failed to delete. */
  lemma FailureRestoresBucket(run: seq<Action>, a: Action, r: nat)
    requires Legal(INITIAL, run) && NoOverlap(run) && AlwaysDefinite(run, r) && Definite(a, r)
    requires OwnStep(Exec(INITIAL, run), a, r) && Apply(Exec(INITIAL, run), a).reqs[r].pc.Answered?
    ensures Restored(Apply(Exec(INITIAL, run), a), Apply(Exec(INITIAL, run), a).reqs[r])
  {
    RunKeepsProgress(run, r);
    RunRestores(run, r);
    StepRestores(Exec(INITIAL, run), a, r);
  }

  ghost predicate NothingLost(s: State) {
    && Referenced(s.issues) <= s.bucket
    && forall r | 0 <= r < |s.reqs| && !s.reqs[r].pc.Answered? :: Unreferenced(s, s.reqs[r])
  }

  lemma StepLosesNothing(s: State, a: Action)
    requires Enabled(s, a) && OneAtATime(s) && OneAtATime(Apply(s, a)) && NothingLost(s)
    requires forall r | 0 <= r < |s.reqs| && !s.reqs[r].pc.Answered? :: InProgress(s, s.reqs[r])
    ensures NothingLost(Apply(s, a))
  {
    var t := Apply(s, a);
    if !a.Tick? && !a.Arrive? {
      StepKeepsReferenced(s, a, a.r);
    }
    forall r | 0 <= r < |t.reqs| && !t.reqs[r].pc.Answered?
      ensures Unreferenced(t, t.reqs[r])
    {
      if r < |s.reqs| && !OwnStep(s, a, r) {
        OthersStand(s, a, r);
      }
    }
  }

  lemma {:induction false} RunLosesNothing(run: seq<Action>)
    requires Legal(INITIAL, run) && NoOverlap(run)
    ensures NothingLost(Exec(INITIAL, run))
  {
    if run != [] {
      var before := run[..|run| - 1];
      RunLosesNothing(before);
      var s := Exec(INITIAL, before);
      forall r | 0 <= r < |s.reqs| && !s.reqs[r].pc.Answered?
        ensures InProgress(s, s.reqs[r])
      {
        RunKeepsProgress(before, r);
      }
      StepLosesNothing(s, run[|run| - 1]);
    }
  }

  /** While requests do not overlap, every attachment of an issue stays in the bucket, whatever crashes or fails. */
  lemma ReferencedStays(run: seq<Action>, i: nat, o: Obj)
    requires Legal(INITIAL, run) && NoOverlap(run)
    requires i < |Exec(INITIAL, run).issues| && o in Exec(INITIAL, run).issues[i].files
    ensures o in Exec(INITIAL, run).bucket
  {
    RunLosesNothing(run);
    assert o in Referenced(Exec(INITIAL, run).issues);
  }

  // When every request is definite.

  ghost predicate Idle(s: State) {
    forall r | 0 <= r < |s.reqs| :: s.reqs[r].pc.Answered?
  }

  ghost predicate AllDefinite(run: seq<Action>) {
    forall r :: AlwaysDefinite(run, r)
  }

  /** What a request found was exactly the attachments of the issues before its own. */
  ghost predicate FoundReferenced(s: State, q: Req) {
    if q.pc.Caching? then
      && s.issues != [] && s.issues[|s.issues| - 1].files == q.files
      && q.found == Referenced(s.issues[..|s.issues| - 1])
    else q.found == Referenced(s.issues)
  }

  ghost predicate Exact(s: State) {
    && (forall r | 0 <= r < |s.reqs| && !s.reqs[r].pc.Answered? :: FoundReferenced(s, s.reqs[r]))
    && (Idle(s) ==> s.bucket == Referenced(s.issues))
  }

  lemma OwnStepIsExact(s: State, a: Action, r: nat)
    requires OwnStep(s, a, r) && !a.Crash? && FoundReferenced(s, s.reqs[r])
    requires Apply(s, a).reqs[r].found == s.reqs[r].found && Apply(s, a).reqs[r].files == s.reqs[r].files
    requires Apply(s, a).reqs[r].pc.Answered? ==> Restored(Apply(s, a), Apply(s, a).reqs[r])
    ensures var t := Apply(s, a);
            if t.reqs[r].pc.Answered? then t.bucket == Referenced(t.issues) else FoundReferenced(t, t.reqs[r])
  {
    if a.CreateIssue? && a.ok {
      assert Apply(s, a).issues[..|s.issues|] == s.issues;
    } else if a.PutDone? {
      var n := |s.issues| - 1;
      assert s.issues == s.issues[..n] + [s.issues[n]];
      ReferencedSnoc(s.issues[..n], s.issues[n]);
    }
  }

  lemma ArrivalIsExact(s: State, a: Action)
    requires a.Arrive? && Exact(s) && OneAtATime(Apply(s, a))
    ensures Exact(Apply(s, a))
  {
    var t := Apply(s, a);
    forall r | 0 <= r < |s.reqs|
      ensures s.reqs[r].pc.Answered?
    {
      if !s.reqs[r].pc.Answered? {
        ArrivalsOverlap(s, a, r);
      }
    }
    assert Idle(s) && !t.reqs[|s.reqs|].pc.Answered?;
  }

  lemma RequestStepIsExact(s: State, a: Action, r: nat)
    requires OwnStep(s, a, r) && !a.Crash? && OneAtATime(s) && Exact(s)
    requires Apply(s, a).reqs[r].found == s.reqs[r].found && Apply(s, a).reqs[r].files == s.reqs[r].files
    requires Apply(s, a).reqs[r].pc.Answered? ==> Restored(Apply(s, a), Apply(s, a).reqs[r])
    ensures Exact(Apply(s, a))
  {
    OwnStepIsExact(s, a, r);
    OnlyOneMoves(s, a, r);
  }

  lemma OnlyOneMoves(s: State, a: Action, r: nat)
    requires OwnStep(s, a, r) && OneAtATime(s)
    ensures |Apply(s, a).reqs| == |s.reqs|
    ensures forall x | 0 <= x < |s.reqs| && x != r :: Apply(s, a).reqs[x].pc.Answered?
  {
    assert forall x | 0 <= x < |s.reqs| && x != r :: Apply(s, a).reqs[x] == s.reqs[x] && s.reqs[x].pc.Answered?;
  }

  lemma DefiniteStepIsExact(run: seq<Action>, a: Action, r: nat)
    requires Legal(INITIAL, run) && NoOverlap(run) && AlwaysDefinite(run, r) && Definite(a, r)
    requires OwnStep(Exec(INITIAL, run), a, r) && Exact(Exec(INITIAL, run))
    ensures Exact(Apply(Exec(INITIAL, run), a))
  {
    var s := Exec(INITIAL, run);
    RunKeepsProgress(run, r);
    StepKeepsProgress(s, a, r);
    RunRestores(run, r);
    StepRestores(s, a, r);
    RequestStepIsExact(s, a, r);
  }

  lemma {:induction false} RunIsExact(run: seq<Action>)
    requires Legal(INITIAL, run) && NoOverlap(run) && AllDefinite(run)
    ensures Exact(Exec(INITIAL, run))
  {
    if run != [] {
      var before, a := run[..|run| - 1], run[|run| - 1];
      var s := Exec(INITIAL, before);
      forall r
        ensures AlwaysDefinite(before, r)
      {
        assert AlwaysDefinite(run, r);
      }
      RunIsExact(before);
      if a.Arrive? {
        ArrivalIsExact(s, a);
      } else if !a.Tick? {
        assert AlwaysDefinite(run, a.r) && AlwaysDefinite(before, a.r) && Definite(run[|before|], a.r);
        DefiniteStepIsExact(before, a, a.r);
      }
    } else {
      assert Referenced([]) == {};
    }
  }

  /** If none is lost and all deletions succeed, between requests the bucket holds the attachments of the issues
      created, and nothing else. */
  lemma BucketIsReferenced(run: seq<Action>)
    requires Legal(INITIAL, run) && NoOverlap(run) && AllDefinite(run) && Idle(Exec(INITIAL, run))
    ensures Exec(INITIAL, run).bucket == Referenced(Exec(INITIAL, run).issues)
  {
    RunIsExact(run);
  }
}
