/** The request handler as code: a worker that handles requests one at a time and updates its stores in
    place.  Whatever each awaited call does, what the worker has done so far is a run of the protocol. */
module FeedbackWorker {
  import opened Prelude
  import opened FeedbackProtocol
  import opened FeedbackSafety

  /** The outcome of reserving a key; `Threw` is a failed store call. */
  datatype Reservation = Taken | Cached(issue: nat) | Busy | Threw

  /** A request's own record is the only one that changed, and not its key, files or history. */
  ghost predicate OnlyMine(before: seq<Req>, after: seq<Req>, me: nat) {
    && |before| == |after| && me < |after|
    && (forall r | 0 <= r < |after| && r != me :: after[r] == before[r])
    && after[me].key == before[me].key && after[me].files == before[me].files && after[me].found == before[me].found
  }

  /** The objects that the uploads created. */
  function Created(us: seq<Upload>): set<Obj> {
    set u | u in us && u.created :: u.obj
  }

  function Objs(files: seq<Obj>): set<Obj> {
    set o | o in files
  }

  lemma CreatedTake(us: seq<Upload>, j: nat)
    requires j < |us|
    ensures Created(us[..j + 1]) == Created(us[..j]) + (if us[j].created then {us[j].obj} else {})
  {
    assert us[..j + 1] == us[..j] + [us[j]];
  }

  lemma ObjsTake(files: seq<Obj>, j: nat)
    requires j < |files|
    ensures Objs(files[..j + 1]) == Objs(files[..j]) + {files[j]}
  {
    assert files[..j + 1] == files[..j] + [files[j]];
  }

  /** Where a method takes `healthy`, this says that none of its awaited calls throws; otherwise any of them may. */
  class Worker {
    var now: real
    var kv: map<Key, Entry>
    var bucket: set<Obj>
    var issues: seq<Issue>
    var slots: seq<nat>
    var served: nat // the number of requests so far, which names the next one
    ghost var reqs: seq<Req>
    ghost var puts: seq<(nat, Obj)>
    ghost var run: seq<Action> // everything done since the worker started

    ghost function World(): State
      reads this
    {
      State(now, kv, bucket, issues, reqs, slots, puts)
    }

    ghost predicate Faithful()
      reads this
    {
      Leads(run, World()) && served == |reqs|
    }

    ghost predicate At(me: nat, pc: Pc)
      reads this
    {
      me < |reqs| && reqs[me].pc == pc
    }

    constructor ()
      ensures Faithful() && World() == INITIAL
    {
      now, kv, bucket, issues, slots, served := 0.0, map[], {}, [], [], 0;
      reqs, puts, run := [], [], [];
    }

    /** What every part of the handler keeps: the run grows, and only the request's own record changes. */
    twostate predicate Progress(me: nat)
      reads this
    {
      Faithful() && old(run) <= run && OnlyMine(old(reqs), reqs, me) && now == old(now) && served == old(served)
    }

    method Wait(dt: real)
      requires Faithful() && dt >= 0.0
      modifies `now, `run
      ensures Faithful() && now == old(now) + dt && run == old(run) + [Tick(dt)]
    {
      ExecStep(INITIAL, run, Tick(dt));
      now := now + dt;
      run := run + [Tick(dt)];
    }

    /** The KV read: expired entries are not visible. */
    method Get(key: Key) returns (value: Option<Record>)
      ensures value.Some? <==> key in kv && now < kv[key].expiry
      ensures value.Some? ==> value.value == kv[key].value
    {
      if key in kv && now < kv[key].expiry {
        value := Some(kv[key].value);
      } else {
        value := None;
      }
    }

    method ReserveResponse(key: Key, me: nat, healthy: bool) returns (result: Reservation)
      requires Faithful() && At(me, Arrived) && reqs[me].key == key
      modifies `kv, `reqs, `run
      ensures Progress(me) && reqs[me].uploads == old(reqs[me].uploads)
      ensures match result
              case Taken => && !(key in old(kv) && now < old(kv)[key].expiry) && At(me, Reserved)
                            && kv == old(kv)[key := Entry(Inflight, now + INFLIGHT_TTL)]
              case Cached(i) => && key in kv && now < kv[key].expiry && kv[key].value == Done(i) && kv == old(kv)
                                && At(me, Answered(Replayed(i)))
              case Busy => && key in kv && now < kv[key].expiry && kv[key].value == Inflight && kv == old(kv)
                           && At(me, Answered(Conflict))
              case Threw => kv == old(kv) && At(me, Answered(Failed))
      ensures healthy ==> !result.Threw?
    {
      var ok: bool :| healthy ==> ok;
      var value := Get(key);
      ExecStep(INITIAL, run, Lookup(me, ok));
      reqs, run := Apply(World(), Lookup(me, ok)).reqs, run + [Lookup(me, ok)];
      if !ok {
        return Threw;
      }
      match value
      case Some(Done(i)) => result := Cached(i);
      case Some(Inflight) => result := Busy;
      case None =>
        var written := WriteReservation(key, me, healthy);
        result := if written then Taken else Threw;
    }

    method WriteReservation(key: Key, me: nat, healthy: bool) returns (written: bool)
      requires Faithful() && At(me, Gap) && reqs[me].key == key
      modifies `kv, `reqs, `run
      ensures Progress(me) && reqs[me].uploads == old(reqs[me].uploads)
      ensures At(me, if written then Reserved else Answered(Failed))
      ensures kv == if written then old(kv)[key := Entry(Inflight, now + INFLIGHT_TTL)] else old(kv)
      ensures healthy ==> written
    {
      written :| healthy ==> written;
      ExecStep(INITIAL, run, PutInflight(me, written));
      reqs, run := Apply(World(), PutInflight(me, written)).reqs, run + [PutInflight(me, written)];
      if written {
        kv := kv[key := Entry(Inflight, now + INFLIGHT_TTL)];
      }
    }

    /** The limiter is modelled in module RateLimit; here its verdict is given. */
    method CheckRateLimit(me: nat, verdict: Verdict)
      requires Faithful() && At(me, Reserved)
      modifies `slots, `reqs, `run
      ensures Progress(me) && reqs[me].uploads == old(reqs[me].uploads)
      ensures match verdict
              case Allowed => At(me, reqs[me].Next())
              case Denied => At(me, Answered(RateLimited))
              case Error => At(me, Answered(Failed))
      ensures slots == if verdict.Allowed? then old(slots) + [me] else old(slots)
    {
      ExecStep(INITIAL, run, Charge(me, verdict));
      reqs, run := Apply(World(), Charge(me, verdict)).reqs, run + [Charge(me, verdict)];
      if verdict.Allowed? {
        slots := slots + [me];
      }
    }

    /** Stores `obj` unless it is there already; `None` when a storage call throws. */
    method UploadAttachment(obj: Obj, me: nat, healthy: bool) returns (upload: Option<Upload>)
      requires Faithful()
      requires At(me, Heading) && |reqs[me].uploads| < |reqs[me].files| && reqs[me].files[|reqs[me].uploads|] == obj
      modifies `bucket, `puts, `reqs, `run
      ensures Progress(me)
      ensures match upload
              case Some(u) => && u == Upload(obj, obj !in old(bucket)) && bucket == old(bucket) + {obj}
                              && reqs[me].uploads == old(reqs[me].uploads) + [u] && At(me, reqs[me].Next())
              case None => && bucket == old(bucket) && reqs[me].uploads == old(reqs[me].uploads)
                           && At(me, reqs[me].CleanFrom(0))
      ensures healthy ==> upload.Some?
    {
      var ok: bool :| healthy ==> ok;
      var existing := obj in bucket;
      ExecStep(INITIAL, run, Head(me, ok));
      reqs, run := Apply(World(), Head(me, ok)).reqs, run + [Head(me, ok)];
      if !ok {
        return None;
      }
      if !existing {
        var stored := StoreObject(obj, me, healthy);
        return if stored then Some(Upload(obj, true)) else None;
      }
      upload := Some(Upload(obj, false));
    }

    method StoreObject(obj: Obj, me: nat, healthy: bool) returns (stored: bool)
      requires Faithful() && obj !in bucket
      requires At(me, Storing) && |reqs[me].uploads| < |reqs[me].files| && reqs[me].files[|reqs[me].uploads|] == obj
      modifies `bucket, `puts, `reqs, `run
      ensures Progress(me)
      ensures if stored then
                && bucket == old(bucket) + {obj} && At(me, reqs[me].Next())
                && reqs[me].uploads == old(reqs[me].uploads) + [Upload(obj, true)]
              else
                && bucket == old(bucket) && At(me, reqs[me].CleanFrom(0))
                && reqs[me].uploads == old(reqs[me].uploads)
      ensures healthy ==> stored
    {
      stored :| healthy ==> stored;
      ExecStep(INITIAL, run, Store(me, stored));
      ghost var next := Apply(World(), Store(me, stored));
      reqs, puts, run := next.reqs, next.puts, run + [Store(me, stored)];
      if stored {
        bucket := bucket + {obj};
      }
    }

    /** Token, labels and the mutation, up to the one that creates the issue. */
    method PostIssue(key: Key, files: seq<Obj>, me: nat, healthy: bool) returns (issue: Option<nat>)
      requires Faithful() && At(me, Creating) && reqs[me].key == key && reqs[me].files == files
      modifies `issues, `reqs, `run
      ensures Progress(me) && reqs[me].uploads == old(reqs[me].uploads)
      ensures match issue
              case Some(i) => && i == |old(issues)| && issues == old(issues) + [Issue(key, me, now, files)]
                              && At(me, Caching(i, 0))
              case None => issues == old(issues) && At(me, reqs[me].CleanFrom(0))
      ensures healthy ==> issue.Some?
    {
      var ok: bool :| healthy ==> ok;
      ExecStep(INITIAL, run, CreateIssue(me, ok));
      reqs, run := Apply(World(), CreateIssue(me, ok)).reqs, run + [CreateIssue(me, ok)];
      if ok {
        issue := Some(|issues|);
        issues := issues + [Issue(key, me, now, files)];
      } else {
        issue := None;
      }
    }

    /** Leaves objects alone that were there before the upload. */
    method DeleteAttachment(upload: Upload, me: nat, j: nat, healthy: bool) returns (ok: bool)
      requires Faithful() && At(me, Cleaning(j)) && j < |reqs[me].uploads| && reqs[me].uploads[j] == upload
      modifies `bucket, `reqs, `run
      ensures Progress(me) && reqs[me].uploads == old(reqs[me].uploads) && At(me, reqs[me].CleanFrom(j + 1))
      ensures bucket == if upload.created && ok then old(bucket) - {upload.obj} else old(bucket)
      ensures healthy ==> ok
    {
      ok :| healthy ==> ok;
      ExecStep(INITIAL, run, Delete(me, ok));
      reqs, run := Apply(World(), Delete(me, ok)).reqs, run + [Delete(me, ok)];
      if upload.created && ok {
        bucket := bucket - {upload.obj};
      }
    }

    /** Deletes the objects this request created, and only those; a failing deletion is ignored. */
    method CleanupCreatedAttachments(uploads: seq<Upload>, me: nat, healthy: bool) returns (ghost clean: bool)
      requires Faithful() && me < |reqs| && reqs[me].uploads == uploads && At(me, reqs[me].CleanFrom(0))
      modifies `bucket, `reqs, `run
      ensures Progress(me) && At(me, Answered(Failed))
      ensures old(bucket) - Created(uploads) <= bucket <= old(bucket)
      ensures clean ==> bucket == old(bucket) - Created(uploads)
      ensures healthy ==> clean
    {
      clean := true;
      var j := 0;
      while j < |uploads|
        invariant 0 <= j <= |uploads| && Progress(me)
        invariant reqs[me].uploads == uploads && At(me, reqs[me].CleanFrom(j))
        invariant old(bucket) - Created(uploads[..j]) <= bucket <= old(bucket)
        invariant clean ==> bucket == old(bucket) - Created(uploads[..j])
        invariant healthy ==> clean
      {
        var ok := DeleteAttachment(uploads[j], me, j, healthy);
        clean := clean && ok;
        CreatedTake(uploads, j);
        j := j + 1;
      }
      assert uploads[..j] == uploads;
    }

    method CacheResponse(key: Key, issue: nat, me: nat, healthy: bool) returns (ok: bool)
      requires Faithful() && me < |reqs| && reqs[me].pc.Caching? && reqs[me].pc.issue == issue && reqs[me].key == key
      modifies `kv, `reqs, `run
      ensures Progress(me)
      ensures kv == if ok then old(kv)[key := Entry(Done(issue), now + DONE_TTL)] else old(kv)
      ensures var tries := old(reqs[me].pc.tries) + 1;
              At(me, if ok || tries >= CACHE_ATTEMPTS then Answered(Fresh(issue)) else Caching(issue, tries))
      ensures healthy ==> ok
    {
      ok :| healthy ==> ok;
      ExecStep(INITIAL, run, PutDone(me, ok));
      reqs, run := Apply(World(), PutDone(me, ok)).reqs, run + [PutDone(me, ok)];
      if ok {
        kv := kv[key := Entry(Done(issue), now + DONE_TTL)];
      }
    }

    /** Up to three attempts to store the response; gives up silently. */
    method CacheResponseWithRetry(key: Key, issue: nat, me: nat, healthy: bool) returns (cached: bool)
      requires Faithful() && At(me, Caching(issue, 0)) && reqs[me].key == key
      modifies `kv, `reqs, `run
      ensures Progress(me) && At(me, Answered(Fresh(issue)))
      ensures kv == if cached then old(kv)[key := Entry(Done(issue), now + DONE_TTL)] else old(kv)
      ensures healthy ==> cached
    {
      var i := 0;
      while i < CACHE_ATTEMPTS
        invariant 0 <= i <= CACHE_ATTEMPTS && kv == old(kv) && Progress(me)
        invariant At(me, if i < CACHE_ATTEMPTS then Caching(issue, i) else Answered(Fresh(issue)))
        invariant healthy ==> i == 0
      {
        cached := CacheResponse(key, issue, me, healthy);
        if cached {
          return;
        }
        i := i + 1;
      }
      cached := false;
    }

    /** The next file; `start` is the bucket before the first. */
    method UploadNext(files: seq<Obj>, uploads: seq<Upload>, me: nat, healthy: bool, ghost start: set<Obj>)
      returns (more: seq<Upload>, ok: bool)
      requires Faithful() && At(me, Heading) && reqs[me].files == files && reqs[me].uploads == uploads
      requires |uploads| < |files| && bucket == start + Objs(files[..|uploads|]) && bucket - Created(uploads) == start
      modifies `bucket, `puts, `reqs, `run
      ensures Progress(me) && reqs[me].uploads == more && |more| == |uploads| + if ok then 1 else 0
      ensures At(me, if ok then reqs[me].Next() else reqs[me].CleanFrom(0))
      ensures bucket == start + Objs(files[..|more|]) && bucket - Created(more) == start
      ensures healthy ==> ok
    {
      var n := |uploads|;
      var upload := UploadAttachment(files[n], me, healthy);
      if upload.None? {
        return uploads, false;
      }
      more, ok := uploads + [upload.value], true;
      ObjsTake(files, n);
      CreatedTake(more, n);
      assert more[..n] == uploads && more[..n + 1] == more;
    }

    /** The files are uploaded in order and listed; the list stops short when a storage call throws. */
    method UploadAll(files: seq<Obj>, me: nat, healthy: bool) returns (uploads: seq<Upload>, ok: bool)
      requires Faithful() && me < |reqs| && reqs[me].files == files && reqs[me].uploads == [] && At(me, reqs[me].Next())
      modifies `bucket, `puts, `reqs, `run
      ensures Progress(me) && reqs[me].uploads == uploads && |uploads| <= |files|
      ensures if ok then |uploads| == |files| && At(me, Creating) else At(me, reqs[me].CleanFrom(0))
      ensures bucket == old(bucket) + Objs(files[..|uploads|])
      ensures bucket - Created(uploads) == old(bucket)
      ensures healthy ==> ok
    {
      uploads, ok := [], true;
      while ok && |uploads| < |files|
        invariant |uploads| <= |files| && Progress(me) && reqs[me].uploads == uploads
        invariant At(me, if ok then reqs[me].Next() else reqs[me].CleanFrom(0))
        invariant bucket == old(bucket) + Objs(files[..|uploads|])
        invariant bucket - Created(uploads) == old(bucket)
        invariant healthy ==> ok
        decreases ok, |files| - |uploads|
      {
        uploads, ok := UploadNext(files, uploads, me, healthy, old(bucket));
      }
    }

    /** Uploads and issue creation: all or nothing, as far as deletions succeed. */
    method Submit(key: Key, files: seq<Obj>, me: nat, healthy: bool) returns (issue: Option<nat>, ghost clean: bool)
      requires Faithful() && me < |reqs| && reqs[me].files == files && reqs[me].key == key
      requires reqs[me].uploads == [] && At(me, reqs[me].Next())
      modifies `bucket, `puts, `issues, `reqs, `run
      ensures Progress(me)
      ensures match issue
              case Some(i) => && i == |old(issues)| && issues == old(issues) + [Issue(key, me, now, files)]
                              && bucket == old(bucket) + Objs(files) && At(me, Caching(i, 0))
              case None => issues == old(issues) && (clean ==> bucket == old(bucket)) && At(me, Answered(Failed))
      ensures healthy ==> issue.Some?
    {
      var uploads, ok := UploadAll(files, me, healthy);
      issue, clean := None, true;
      if ok {
        issue := PostIssue(key, files, me, healthy);
        assert files[..|uploads|] == files;
      }
      if issue.None? {
        clean := CleanupCreatedAttachments(uploads, me, healthy);
      }
    }

    /** A validated request; the size, JSON and payload gates come before and touch no store. */
    method Admit(key: Key, files: seq<Obj>) returns (me: nat)
      requires Faithful()
      modifies `served, `reqs, `run
      ensures Faithful() && old(run) <= run && me == |old(reqs)|
      ensures reqs == old(reqs) + [Req(key, files, Arrived, now, [], bucket)]
    {
      ExecStep(INITIAL, run, Arrive(key, files));
      me := served;
      reqs, run := Apply(World(), Arrive(key, files)).reqs, run + [Arrive(key, files)];
      served := served + 1;
    }

    /** Past the limiter: uploads and issue, stored response. */
    method Complete(key: Key, files: seq<Obj>, me: nat, healthy: bool) returns (answer: Answer, ghost clean: bool)
      requires Faithful() && me < |reqs| && reqs[me].files == files && reqs[me].key == key
      requires reqs[me].uploads == [] && At(me, reqs[me].Next())
      modifies `kv, `bucket, `puts, `issues, `reqs, `run
      ensures Progress(me) && At(me, Answered(answer))
      ensures match answer
              case Fresh(i) => && issues == old(issues) + [Issue(key, me, now, files)] && i == |old(issues)|
                               && bucket == old(bucket) + Objs(files)
                               && (kv == old(kv) || kv == old(kv)[key := Entry(Done(i), now + DONE_TTL)])
              case Failed => issues == old(issues) && (clean ==> bucket == old(bucket)) && kv == old(kv)
              case _ => false
      ensures healthy ==> answer.Fresh? && kv == old(kv)[key := Entry(Done(answer.issue), now + DONE_TTL)]
    {
      var issue;
      issue, clean := Submit(key, files, me, healthy);
      if issue.None? {
        return Failed, clean;
      }
      var cached := CacheResponseWithRetry(key, issue.value, me, healthy);
      answer := Fresh(issue.value);
    }

    /** A request that owns its key: limiter, uploads and issue, stored response. */
    method Process(key: Key, files: seq<Obj>, me: nat, verdict: Verdict, healthy: bool)
      returns (answer: Answer, ghost clean: bool)
      requires Faithful() && At(me, Reserved)
      requires reqs[me].files == files && reqs[me].key == key && reqs[me].uploads == []
      modifies `kv, `bucket, `puts, `issues, `slots, `reqs, `run
      ensures Progress(me) && At(me, Answered(answer)) && (answer.Fresh? || answer.Failed? || answer.RateLimited?)
      ensures answer.Fresh? ==> && issues == old(issues) + [Issue(key, me, now, files)] && answer.issue == |old(issues)|
                                && bucket == old(bucket) + Objs(files)
      ensures !answer.Fresh? ==> issues == old(issues) && (clean ==> bucket == old(bucket))
      ensures slots == old(slots) + [me] || (!answer.Fresh? && slots == old(slots))
      ensures answer.RateLimited? ==> slots == old(slots)
      ensures kv == old(kv) || (answer.Fresh? && kv == old(kv)[key := Entry(Done(answer.issue), now + DONE_TTL)])
      ensures match verdict
              case Allowed =>
                healthy ==> answer.Fresh? && kv == old(kv)[key := Entry(Done(answer.issue), now + DONE_TTL)]
              case Denied => answer == RateLimited
              case Error => answer == Failed
    {
      CheckRateLimit(me, verdict);
      if !verdict.Allowed? {
        return if verdict.Denied? then RateLimited else Failed, true;
      }
      answer, clean := Complete(key, files, me, healthy);
    }

    /** A request that has arrived: reservation and what follows from it. */
    method Serve(key: Key, files: seq<Obj>, me: nat, verdict: Verdict, healthy: bool)
      returns (answer: Answer, ghost clean: bool)
      requires Faithful() && At(me, Arrived)
      requires reqs[me].files == files && reqs[me].key == key && reqs[me].uploads == []
      modifies `kv, `bucket, `puts, `issues, `slots, `reqs, `run
      ensures Progress(me) && At(me, Answered(answer))
      ensures answer.Fresh? ==> && issues == old(issues) + [Issue(key, me, now, files)] && answer.issue == |old(issues)|
                                && bucket == old(bucket) + Objs(files)
      ensures !answer.Fresh? ==> issues == old(issues) && (clean ==> bucket == old(bucket))
      ensures if key in old(kv) && now < old(kv)[key].expiry then
                && (answer == Failed || match old(kv)[key].value
                                        case Done(i) => answer == Replayed(i)
                                        case Inflight => answer == Conflict)
                && kv == old(kv) && slots == old(slots) && bucket == old(bucket)
              else answer.Fresh? || answer.RateLimited? || answer.Failed?
      ensures var reserved := old(kv)[key := Entry(Inflight, now + INFLIGHT_TTL)];
              match answer
              case Fresh(i) => kv == reserved || kv == reserved[key := Entry(Done(i), now + DONE_TTL)]
              case RateLimited => kv == reserved
              case Failed => kv == reserved || (kv == old(kv) && slots == old(slots) && bucket == old(bucket))
              case _ => kv == old(kv)
      ensures if answer.Fresh? then slots == old(slots) + [me]
              else slots == old(slots) || (answer.Failed? && slots == old(slots) + [me])
      ensures healthy && key in old(kv) && now < old(kv)[key].expiry ==> !answer.Failed?
      ensures healthy && !(key in old(kv) && now < old(kv)[key].expiry) ==>
                match verdict
                case Allowed => answer.Fresh? && kv == old(kv)[key := Entry(Done(answer.issue), now + DONE_TTL)]
                case Denied => answer == RateLimited
                case Error => answer == Failed
    {
      var reservation := ReserveResponse(key, me, healthy);
      clean := true;
      match reservation
      case Cached(i) => answer := Replayed(i);
      case Busy => answer := Conflict;
      case Threw => answer := Failed;
      case Taken => answer, clean := Process(key, files, me, verdict, healthy);
    }

    /** One request from arrival to reply. `verdict` is what the limiter will say, if asked; `healthy` says that no
        other call throws, and then the reply is determined. */
    method HandleFeedback(key: Key, files: seq<Obj>, verdict: Verdict, healthy: bool)
      returns (answer: Answer, ghost clean: bool)
      requires Faithful()
      modifies this
      ensures Faithful() && old(run) <= run && now == old(now)
      ensures |reqs| == |old(reqs)| + 1 && reqs[..|old(reqs)|] == old(reqs) && reqs[|old(reqs)|].pc == Answered(answer)
      ensures answer.Fresh? ==> && issues == old(issues) + [Issue(key, |old(reqs)|, now, files)]
                                && answer.issue == |old(issues)| && bucket == old(bucket) + Objs(files)
      ensures !answer.Fresh? ==> issues == old(issues) && (clean ==> bucket == old(bucket))
      ensures if key in old(kv) && now < old(kv)[key].expiry then
                && (answer == Failed || match old(kv)[key].value
                                        case Done(i) => answer == Replayed(i)
                                        case Inflight => answer == Conflict)
                && kv == old(kv) && slots == old(slots) && bucket == old(bucket)
              else answer.Fresh? || answer.RateLimited? || answer.Failed?
      ensures var reserved := old(kv)[key := Entry(Inflight, now + 60.0)];
              match answer
              case Fresh(i) => kv == reserved || kv == reserved[key := Entry(Done(i), now + 300.0)]
              case RateLimited => kv == reserved
              case Failed => kv == reserved || (kv == old(kv) && slots == old(slots) && bucket == old(bucket))
              case _ => kv == old(kv)
      ensures if answer.Fresh? then slots == old(slots) + [|old(reqs)|]
              else slots == old(slots) || (answer.Failed? && slots == old(slots) + [|old(reqs)|])
      ensures healthy && key in old(kv) && now < old(kv)[key].expiry ==> !answer.Failed?
      ensures healthy && !(key in old(kv) && now < old(kv)[key].expiry) ==>
                match verdict
                case Allowed => answer.Fresh? && kv == old(kv)[key := Entry(Done(answer.issue), now + 300.0)]
                case Denied => answer == RateLimited
                case Error => answer == Failed
    {
      var me := Admit(key, files);
      answer, clean := Serve(key, files, me, verdict, healthy);
    }
  }

  /** So every theorem about runs applies to a worker, for instance safety. */
  lemma WorkerIsSafe(w: Worker)
    requires w.Faithful()
    ensures Safe(w.World())
  {
    EveryInterleavingIsSafe(w.run);
  }
}
