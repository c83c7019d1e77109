/** The feedback worker as a transition system.

    Every `await` in the request handler is a point where another request may run, so one action below
    is one awaited call (or the synchronous code up to the next await).  A run is the sequence of actions
    taken by any number of requests, in any interleaving, together with the passage of time.

    Sources: feedback-worker/src/idempotency.ts, r2-upload.ts and the handler in index.ts. */
module FeedbackProtocol {
  import opened Prelude

  const INFLIGHT_TTL := 60.0
  const DONE_TTL := 300.0
  const CACHE_ATTEMPTS := 3

  type Key = string
  type Obj = string // content-addressed attachment key

  /** What the idempotency store keeps under one key, and until when. */
  datatype Record = Inflight | Done(issue: nat)
  datatype Entry = Entry(value: Record, expiry: real)

  datatype Issue = Issue(key: Key, creator: nat, at: real, files: seq<Obj>)
  datatype Upload = Upload(obj: Obj, created: bool)

  /** The reply of a request; `Lost` is an isolate that stopped without replying. */
  datatype Answer = Replayed(issue: nat) | Fresh(issue: nat) | Conflict | RateLimited | Failed | Lost

  /** The await a request is suspended at. `Gap` lies between the read and the write of a reservation. */
  datatype Pc =
    | Arrived
    | Gap
    | Reserved
    | Heading
    | Storing
    | Creating
    | Caching(issue: nat, tries: nat)
    | Cleaning(next: nat)
    | Answered(answer: Answer)

  /** `found` is a history variable: the bucket as the request found it on arrival. */
  datatype Req = Req(key: Key, files: seq<Obj>, pc: Pc, reservedAt: real, uploads: seq<Upload>, found: set<Obj>)
  {
    function Next(): Pc {
      if |uploads| < |files| then Heading else Creating
    }

    function CleanFrom(j: nat): Pc {
      if j < |uploads| then Cleaning(j) else Answered(Failed)
    }

    /** The request holds a reservation it may still turn into an issue. */
    predicate Active() {
      pc.Reserved? || pc.Heading? || pc.Storing? || pc.Creating? || pc.Caching?
    }
  }

  /** Issues and requests are identified by their index.  `slots` and `puts` record who used a rate-limit
      slot and who wrote which object. */
  datatype State = State(now: real, kv: map<Key, Entry>, bucket: set<Obj>, issues: seq<Issue>,
                         reqs: seq<Req>, slots: seq<nat>, puts: seq<(nat, Obj)>)
  {
    /** What a KV read of `k` returns: expired entries are not visible. */
    function Live(k: Key): Option<Record> {
      if k in kv && now < kv[k].expiry then Some(kv[k].value) else None
    }

    function Goto(r: nat, pc: Pc): State
      requires r < |reqs|
    {
      this.(reqs := reqs[r := reqs[r].(pc := pc)])
    }
  }

  const INITIAL := State(0.0, map[], {}, [], [], [], [])

  /** A reservation made at time zero. */
  const HELD := Entry(Inflight, INFLIGHT_TTL)

  datatype Verdict = Allowed | Denied | Error

  /** `ok` is false when the awaited call throws; a call that throws has had no effect. */
  datatype Action =
    | Tick(dt: real)
    | Arrive(key: Key, files: seq<Obj>)
    | Lookup(r: nat, ok: bool)
    | PutInflight(r: nat, ok: bool)
    | Charge(r: nat, verdict: Verdict)
    | Head(r: nat, ok: bool)
    | Store(r: nat, ok: bool)
    | CreateIssue(r: nat, ok: bool)
    | PutDone(r: nat, ok: bool)
    | Delete(r: nat, ok: bool)
    | Crash(r: nat)

  predicate Enabled(s: State, a: Action) {
    match a
    case Tick(dt) => dt >= 0.0
    case Arrive(_, _) => true
    case Lookup(r, _) => r < |s.reqs| && s.reqs[r].pc.Arrived?
    case PutInflight(r, _) => r < |s.reqs| && s.reqs[r].pc.Gap?
    case Charge(r, _) => r < |s.reqs| && s.reqs[r].pc.Reserved?
    case Head(r, _) => r < |s.reqs| && s.reqs[r].pc.Heading? && |s.reqs[r].uploads| < |s.reqs[r].files|
    case Store(r, _) => r < |s.reqs| && s.reqs[r].pc.Storing? && |s.reqs[r].uploads| < |s.reqs[r].files|
    case CreateIssue(r, _) => r < |s.reqs| && s.reqs[r].pc.Creating?
    case PutDone(r, _) => r < |s.reqs| && s.reqs[r].pc.Caching?
    case Delete(r, _) => r < |s.reqs| && s.reqs[r].pc.Cleaning? && s.reqs[r].pc.next < |s.reqs[r].uploads|
    case Crash(r) => r < |s.reqs| && !s.reqs[r].pc.Answered?
  }

  function Apply(s: State, a: Action): State
    requires Enabled(s, a)
  {
    match a
    case Tick(dt) => s.(now := s.now + dt)
    case Arrive(key, files) => s.(reqs := s.reqs + [Req(key, files, Arrived, s.now, [], s.bucket)])
    case Lookup(r, ok) =>
      s.Goto(r,
             if !ok then Answered(Failed) else
             match s.Live(s.reqs[r].key)
             case Some(Done(i)) => Answered(Replayed(i))
             case Some(Inflight) => Answered(Conflict)
             case None => Gap)
    case PutInflight(r, ok) =>
      if !ok then s.Goto(r, Answered(Failed)) else
      var q := s.reqs[r];
      s.(kv := s.kv[q.key := Entry(Inflight, s.now + INFLIGHT_TTL)],
         reqs := s.reqs[r := q.(pc := Reserved, reservedAt := s.now)])
    case Charge(r, verdict) =>
      if verdict.Allowed? then s.Goto(r, s.reqs[r].Next()).(slots := s.slots + [r])
      else s.Goto(r, Answered(if verdict.Denied? then RateLimited else Failed))
    case Head(r, ok) =>
      var q := s.reqs[r];
      if !ok then s.Goto(r, q.CleanFrom(0)) else
      var o := q.files[|q.uploads|];
      if o in s.bucket then s.(reqs := s.reqs[r := Uploaded(q, false)]) else s.Goto(r, Storing)
    case Store(r, ok) =>
      var q := s.reqs[r];
      if !ok then s.Goto(r, q.CleanFrom(0)) else
      var o := q.files[|q.uploads|];
      s.(bucket := s.bucket + {o}, puts := s.puts + [(r, o)], reqs := s.reqs[r := Uploaded(q, true)])
    case CreateIssue(r, ok) =>
      var q := s.reqs[r];
      if !ok then s.Goto(r, q.CleanFrom(0)) else
      s.Goto(r, Caching(|s.issues|, 0)).(issues := s.issues + [Issue(q.key, r, s.now, q.files)])
    case PutDone(r, ok) =>
      var q := s.reqs[r];
      if ok then
        s.Goto(r, Answered(Fresh(q.pc.issue)))
         .(kv := s.kv[q.key := Entry(Done(q.pc.issue), s.now + DONE_TTL)])
      else if q.pc.tries + 1 < CACHE_ATTEMPTS then s.Goto(r, Caching(q.pc.issue, q.pc.tries + 1))
      else s.Goto(r, Answered(Fresh(q.pc.issue)))
    case Delete(r, ok) =>
      var q := s.reqs[r];
      var u := q.uploads[q.pc.next];
      s.Goto(r, q.CleanFrom(q.pc.next + 1))
       .(bucket := if u.created && ok then s.bucket - {u.obj} else s.bucket)
    case Crash(r) => s.Goto(r, Answered(Lost))
  }

  /** The next file of the request is in the bucket; move on to the following one. */
  function Uploaded(q: Req, created: bool): Req
    requires |q.uploads| < |q.files|
  {
    var q' := q.(uploads := q.uploads + [Upload(q.files[|q.uploads|], created)]);
    q'.(pc := q'.Next())
  }

  // Runs are action sequences; they grow at the end.

  predicate Legal(s: State, run: seq<Action>)
    decreases |run|, 0
  {
    run == [] || (Legal(s, run[..|run| - 1]) && Enabled(Exec(s, run[..|run| - 1]), run[|run| - 1]))
  }

  function Exec(s: State, run: seq<Action>): State
    requires Legal(s, run)
    decreases |run|, 1
  {
    if run == [] then s else Apply(Exec(s, run[..|run| - 1]), run[|run| - 1])
  }

  lemma ExecStep(s: State, run: seq<Action>, a: Action)
    requires Legal(s, run) && Enabled(Exec(s, run), a)
    ensures Legal(s, run + [a]) && Exec(s, run + [a]) == Apply(Exec(s, run), a)
  {
    assert (run + [a])[..|run + [a]| - 1] == run;
  }

  ghost predicate Leads(run: seq<Action>, s: State) {
    Legal(INITIAL, run) && Exec(INITIAL, run) == s
  }

  lemma Extend(run: seq<Action>, s: State, a: Action, t: State)
    requires Leads(run, s) && Enabled(s, a) && Apply(s, a) == t
    ensures Leads(run + [a], t)
  {
    ExecStep(INITIAL, run, a);
  }

  lemma {:induction false} ExecConcat(s: State, run1: seq<Action>, run2: seq<Action>)
    requires Legal(s, run1) && Legal(Exec(s, run1), run2)
    ensures Legal(s, run1 + run2) && Exec(s, run1 + run2) == Exec(Exec(s, run1), run2)
  {
    if run2 == [] {
      assert run1 + run2 == run1;
    } else {
      var n := |run2| - 1;
      ExecConcat(s, run1, run2[..n]);
      assert run1 + run2 == (run1 + run2[..n]) + [run2[n]];
      ExecStep(s, run1 + run2[..n], run2[n]);
    }
  }
}
