/** The per-isolate rate limiter: a promise-chain lock per key prefix around a count-then-write on the store.

    Source: feedback-worker/src/ratelimit.ts.  Requests are numbered in the order in which they ask for the
    lock.  The promise that request `r` leaves behind in the map is identified with `r`: it settles when the
    promise found there before has settled and `r` has released.  The store is consistent and its keys do not
    expire; one hour of one isolate is modelled, starting from whatever the store already holds. */
module RateLimit {
  import opened Prelude

  const LIMIT := 5

  type Prefix = string
  type Suffix = string

  datatype Result = Allowed(count: nat) | Denied(count: nat) | Threw

  datatype Pc = Waiting | Holding | Writing(existing: nat) | Leaving(result: Result) | Left(result: Result)
  {
    predicate Grants() {
      (Leaving? || Left?) && result.Allowed?
    }

    /** How many steps the request still has to take. */
    function Work(): nat {
      match this
      case Waiting => 4
      case Holding => 3
      case Writing(_) => 2
      case Leaving(_) => 1
      case Left(_) => 0
    }
  }

  /** `previous` is the promise found in the map on entry. */
  datatype Req = Req(prefix: Prefix, previous: Option<nat>, pc: Pc)

  datatype State = State(locks: map<Prefix, nat>, store: set<(Prefix, Suffix)>, reqs: seq<Req>)
  {
    function Goto(r: nat, pc: Pc): State
      requires r < |reqs|
    {
      this.(reqs := reqs[r := reqs[r].(pc := pc)])
    }
  }

  /** The stored keys under a prefix. */
  function Listed(store: set<(Prefix, Suffix)>, p: Prefix): set<(Prefix, Suffix)> {
    set x | x in store && x.0 == p
  }

  predicate Settled(reqs: seq<Req>, promise: Option<nat>)
    decreases if promise.Some? then promise.value + 1 else 0
  {
    promise.Some? ==>
      && promise.value < |reqs| && reqs[promise.value].pc.Left?
      && (reqs[promise.value].previous.Some? ==> reqs[promise.value].previous.value < promise.value)
      && Settled(reqs, reqs[promise.value].previous)
  }

  /** `ok` is false when the store call throws. */
  datatype Action =
    | Enter(prefix: Prefix)
    | Acquire(r: nat)
    | List(r: nat, ok: bool)
    | Put(r: nat, suffix: Suffix, ok: bool)
    | Release(r: nat)

  predicate Enabled(s: State, a: Action) {
    match a
    case Enter(_) => true
    case Acquire(r) => r < |s.reqs| && s.reqs[r].pc.Waiting? && Settled(s.reqs, s.reqs[r].previous)
    case List(r, _) => r < |s.reqs| && s.reqs[r].pc.Holding?
    case Put(r, suffix, _) => r < |s.reqs| && s.reqs[r].pc.Writing? && (s.reqs[r].prefix, suffix) !in s.store
    case Release(r) => r < |s.reqs| && s.reqs[r].pc.Leaving?
  }

  function Apply(s: State, a: Action): State
    requires Enabled(s, a)
  {
    match a
    case Enter(p) =>
      var previous := if p in s.locks then Some(s.locks[p]) else None;
      s.(locks := s.locks[p := |s.reqs|], reqs := s.reqs + [Req(p, previous, Waiting)])
    case Acquire(r) => s.Goto(r, Holding)
    case List(r, ok) =>
      var found := |Listed(s.store, s.reqs[r].prefix)|;
      var existing := if found <= LIMIT + 1 then found else LIMIT + 1;
      s.Goto(r,
             if !ok then Leaving(Threw) else if existing >= LIMIT then Leaving(Denied(existing)) else Writing(existing))
    case Put(r, suffix, ok) =>
      if !ok then s.Goto(r, Leaving(Threw)) else
      s.Goto(r, Leaving(Allowed(s.reqs[r].pc.existing + 1))).(store := s.store + {(s.reqs[r].prefix, suffix)})
    case Release(r) =>
      var p := s.reqs[r].prefix;
      s.Goto(r, Left(s.reqs[r].pc.result))
       .(locks := if p in s.locks && s.locks[p] == r then s.locks - {p} else s.locks)
  }

  function Start(store: set<(Prefix, Suffix)>): State {
    State(map[], store, [])
  }

  predicate Legal(s: State, run: seq<Action>)
    decreases |run|, 0
  {
    run == [] || (Legal(s, run[..|run| - 1]) && Enabled(Exec(s, run[..|run| - 1]), run[|run| - 1]))
  }

  function Exec(s: State, run: seq<Action>): State
    requires Legal(s, run)
    decreases |run|, 1
  {
    if run == [] then s else Apply(Exec(s, run[..|run| - 1]), run[|run| - 1])
  }

  // The lock.

  ghost predicate LeftBefore(reqs: seq<Req>, r: nat, p: Prefix)
    requires r <= |reqs|
  {
    forall q | 0 <= q < r && reqs[q].prefix == p :: reqs[q].pc.Left?
  }

  /** `previous` is the latest earlier request for the prefix, or there is none that has not left. */
  ghost predicate Linked(reqs: seq<Req>, r: nat)
    requires r < |reqs|
  {
    match reqs[r].previous
    case None => LeftBefore(reqs, r, reqs[r].prefix)
    case Some(p) =>
      && p < r && reqs[p].prefix == reqs[r].prefix
      && forall q | p < q < r :: reqs[q].prefix != reqs[r].prefix
  }

  /** Whoever is past the lock came after nobody who has not left. */
  ghost predicate InTurn(reqs: seq<Req>, r: nat)
    requires r < |reqs|
  {
    reqs[r].pc.Waiting? || LeftBefore(reqs, r, reqs[r].prefix)
  }

  ghost predicate SlotOk(s: State, p: Prefix) {
    if p in s.locks then
      var last := s.locks[p];
      && last < |s.reqs| && s.reqs[last].prefix == p && !s.reqs[last].pc.Left?
      && forall q | last < q < |s.reqs| :: s.reqs[q].prefix != p
    else
      LeftBefore(s.reqs, |s.reqs|, p)
  }

  ghost predicate LockInv(s: State) {
    && (forall r | 0 <= r < |s.reqs| :: Linked(s.reqs, r))
    && (forall r | 0 <= r < |s.reqs| :: InTurn(s.reqs, r))
    && (forall p :: SlotOk(s, p))
  }

  lemma {:induction false} SettledMeansLeft(reqs: seq<Req>, r: nat)
    requires r < |reqs| && forall q | 0 <= q <= r :: Linked(reqs, q)
    ensures Settled(reqs, reqs[r].previous) <==> LeftBefore(reqs, r, reqs[r].prefix)
  {
    assert Linked(reqs, r);
    if reqs[r].previous.Some? {
      var p := reqs[r].previous.value;
      SettledMeansLeft(reqs, p);
      assert Linked(reqs, p);
    }
  }

  lemma StepKeepsLinks(s: State, a: Action, r: nat)
    requires Enabled(s, a) && LockInv(s) && r < |Apply(s, a).reqs|
    ensures Linked(Apply(s, a).reqs, r)
  {
    if r < |s.reqs| {
      assert Linked(s.reqs, r);
    } else {
      assert SlotOk(s, a.prefix);
    }
  }

  lemma StepKeepsTurns(s: State, a: Action, r: nat)
    requires Enabled(s, a) && LockInv(s) && r < |Apply(s, a).reqs|
    ensures InTurn(Apply(s, a).reqs, r)
  {
    if r < |s.reqs| {
      assert InTurn(s.reqs, r);
      if a == Acquire(r) {
        SettledMeansLeft(s.reqs, r);
      }
    }
  }

  lemma StepKeepsSlot(s: State, a: Action, p: Prefix)
    requires Enabled(s, a) && LockInv(s)
    ensures SlotOk(Apply(s, a), p)
  {
    assert SlotOk(s, p);
    if a.Release? {
      assert InTurn(s.reqs, a.r);
    }
  }

  lemma {:induction false} RunKeepsLockInv(store: set<(Prefix, Suffix)>, run: seq<Action>)
    requires Legal(Start(store), run)
    ensures LockInv(Exec(Start(store), run))
  {
    if run != [] {
      var before, a := run[..|run| - 1], run[|run| - 1];
      RunKeepsLockInv(store, before);
      var s := Exec(Start(store), before);
      forall r | 0 <= r < |Apply(s, a).reqs| ensures Linked(Apply(s, a).reqs, r) && InTurn(Apply(s, a).reqs, r) {
        StepKeepsLinks(s, a, r);
        StepKeepsTurns(s, a, r);
      }
      forall p ensures SlotOk(Apply(s, a), p) {
        StepKeepsSlot(s, a, p);
      }
    }
  }

  /** Mutual exclusion in order of arrival: when a request is past the lock, all earlier ones for the prefix
      have left and all later ones are still waiting. */
  lemma EntersInTurn(store: set<(Prefix, Suffix)>, run: seq<Action>, q: nat, r: nat)
    requires Legal(Start(store), run)
    requires q < r < |Exec(Start(store), run).reqs|
    requires Exec(Start(store), run).reqs[q].prefix == Exec(Start(store), run).reqs[r].prefix
    ensures var reqs := Exec(Start(store), run).reqs; reqs[q].pc.Left? || reqs[r].pc.Waiting?
  {
    RunKeepsLockInv(store, run);
    assert InTurn(Exec(Start(store), run).reqs, r);
  }

  /** The map holds a promise for a prefix exactly while some request for it has not left. */
  lemma SlotIsFreedExactlyWhenDrained(store: set<(Prefix, Suffix)>, run: seq<Action>, p: Prefix)
    requires Legal(Start(store), run)
    ensures var s := Exec(Start(store), run);
            p !in s.locks <==> forall q | 0 <= q < |s.reqs| && s.reqs[q].prefix == p :: s.reqs[q].pc.Left?
  {
    RunKeepsLockInv(store, run);
    assert SlotOk(Exec(Start(store), run), p);
  }

  // Progress.

  function TotalWork(reqs: seq<Req>): nat {
    if reqs == [] then 0 else TotalWork(reqs[..|reqs| - 1]) + reqs[|reqs| - 1].pc.Work()
  }

  lemma {:induction false} WorkOfUpdate(reqs: seq<Req>, r: nat, q: Req)
    requires r < |reqs|
    ensures TotalWork(reqs[r := q]) == TotalWork(reqs) - reqs[r].pc.Work() + q.pc.Work()
  {
    var n := |reqs| - 1;
    if r == n {
      assert reqs[r := q][..n] == reqs[..n];
    } else {
      assert reqs[r := q][..n] == reqs[..n][r := q];
      WorkOfUpdate(reqs[..n], r, q);
    }
  }

  /** Every step of a request already there brings it closer to leaving. */
  lemma StepsAreProgress(s: State, a: Action)
    requires Enabled(s, a) && !a.Enter?
    ensures TotalWork(Apply(s, a).reqs) < TotalWork(s.reqs)
  {
    WorkOfUpdate(s.reqs, a.r, Apply(s, a).reqs[a.r]);
  }

  lemma FreshSuffix(store: set<(Prefix, Suffix)>, p: Prefix) returns (x: Suffix)
    ensures (p, x) !in store
  {
    var rest := store;
    x := "0";
    while rest != {}
      invariant rest <= store && forall k | k in store - rest :: |k.1| < |x|
      decreases rest
    {
      var k :| k in rest;
      rest := rest - {k};
      if |k.1| >= |x| {
        x := k.1 + "0";
      }
    }
  }

  /** Of the requests for a prefix that have not left, the earliest can take a successful step. */
  lemma NoDeadlock(s: State, last: nat) returns (a: Action)
    requires LockInv(s) && last < |s.reqs| && !s.reqs[last].pc.Left?
    ensures Enabled(s, a) && !a.Enter? && s.reqs[a.r].prefix == s.reqs[last].prefix
  {
    var p := s.reqs[last].prefix;
    var r := 0;
    while s.reqs[r].pc.Left? || s.reqs[r].prefix != p
      invariant 0 <= r <= last && LeftBefore(s.reqs, r, p)
      decreases last - r
    {
      r := r + 1;
    }
    a := NextStep(s, r);
  }

  lemma NextStep(s: State, r: nat) returns (a: Action)
    requires LockInv(s) && r < |s.reqs| && !s.reqs[r].pc.Left? && LeftBefore(s.reqs, r, s.reqs[r].prefix)
    ensures Enabled(s, a) && !a.Enter? && a.r == r
  {
    SettledMeansLeft(s.reqs, r);
    match s.reqs[r].pc
    case Waiting => a := Acquire(r);
    case Holding => a := List(r, true);
    case Writing(_) =>
      var suffix := FreshSuffix(s.store, s.reqs[r].prefix);
      a := Put(r, suffix, true);
    case Leaving(_) => a := Release(r);
  }

  predicate IsStepFor(s: State, a: Action, p: Prefix) {
    !a.Enter? && a.r < |s.reqs| && s.reqs[a.r].prefix == p
  }

  /** The actions from `n` on are steps of requests for `p`. */
  ghost predicate OnlyFor(s: State, run: seq<Action>, n: nat, p: Prefix) {
    forall i | n <= i < |run| :: IsStepFor(s, run[i], p)
  }

  ghost predicate Drained(s: State, p: Prefix) {
    p !in s.locks && forall r | 0 <= r < |s.reqs| && s.reqs[r].prefix == p :: s.reqs[r].pc.Left?
  }

  lemma StepKeepsPrefix(s: State, a: Action, r: nat)
    requires Enabled(s, a) && r < |s.reqs|
    ensures r < |Apply(s, a).reqs| && Apply(s, a).reqs[r].prefix == s.reqs[r].prefix
    ensures !a.Enter? ==> |Apply(s, a).reqs| == |s.reqs|
  {
  }

  /** A run after which some request has not left can be extended by a step for the same prefix, and has less to do. */
  lemma DrainStep(store: set<(Prefix, Suffix)>, run: seq<Action>, last: nat) returns (longer: seq<Action>)
    requires Legal(Start(store), run) && last < |Exec(Start(store), run).reqs|
    requires !Exec(Start(store), run).reqs[last].pc.Left?
    ensures |longer| == |run| + 1 && run <= longer && Legal(Start(store), longer) && !longer[|run|].Enter?
    ensures var s, t, r := Exec(Start(store), run), Exec(Start(store), longer), longer[|run|].r;
            && |t.reqs| == |s.reqs| && TotalWork(t.reqs) < TotalWork(s.reqs)
            && r < |t.reqs| && t.reqs[r].prefix == s.reqs[last].prefix
  {
    var s := Exec(Start(store), run);
    RunKeepsLockInv(store, run);
    var a := NoDeadlock(s, last);
    StepsAreProgress(s, a);
    StepKeepsPrefix(s, a, a.r);
    longer := run + [a];
    assert longer[..|run|] == run;
  }

  /** However the run has gone so far, the requests for a prefix can all leave by steps of their own, and then its slot
      is free: a stalled prefix blocks no other. */
  lemma {:induction false} PrefixDrains(store: set<(Prefix, Suffix)>, run: seq<Action>, p: Prefix)
    returns (longer: seq<Action>)
    requires Legal(Start(store), run)
    ensures Legal(Start(store), longer) && run <= longer
    ensures OnlyFor(Exec(Start(store), longer), longer, |run|, p)
    ensures Drained(Exec(Start(store), longer), p)
    ensures |Exec(Start(store), longer).reqs| == |Exec(Start(store), run).reqs|
    decreases TotalWork(Exec(Start(store), run).reqs)
  {
    var s := Exec(Start(store), run);
    if last :| 0 <= last < |s.reqs| && s.reqs[last].prefix == p && !s.reqs[last].pc.Left? {
      var next := DrainStep(store, run, last);
      longer := PrefixDrains(store, next, p);
      PrefixIsKept(store, next, longer, next[|run|].r);
      OneMoreFor(Exec(Start(store), longer), next, longer, |run|, p);
    } else {
      longer := run;
      SlotIsFreedExactlyWhenDrained(store, run, p);
    }
  }

  lemma OneMoreFor(s: State, run: seq<Action>, longer: seq<Action>, n: nat, p: Prefix)
    requires n + 1 == |run| && run <= longer && OnlyFor(s, longer, n + 1, p) && IsStepFor(s, run[n], p)
    ensures OnlyFor(s, longer, n, p)
  {
    assert longer[n] == run[n];
  }

  lemma {:induction false} PrefixIsKept(store: set<(Prefix, Suffix)>, run: seq<Action>, longer: seq<Action>, r: nat)
    requires Legal(Start(store), run) && Legal(Start(store), longer) && run <= longer
    requires r < |Exec(Start(store), run).reqs|
    ensures r < |Exec(Start(store), longer).reqs|
    ensures Exec(Start(store), longer).reqs[r].prefix == Exec(Start(store), run).reqs[r].prefix
  {
    if run != longer {
      var before := longer[..|longer| - 1];
      assert run <= before;
      PrefixIsKept(store, run, before, r);
      StepKeepsPrefix(Exec(Start(store), before), longer[|longer| - 1], r);
    }
  }

  /** No request arrives from action `n` on. */
  ghost predicate NoneArrive(run: seq<Action>, n: nat) {
    forall i | n <= i < |run| :: !run[i].Enter?
  }

  lemma NoneArriveSooner(run: seq<Action>, longer: seq<Action>, n: nat)
    requires n + 1 == |run| && run <= longer && NoneArrive(longer, n + 1) && !run[n].Enter?
    ensures NoneArrive(longer, n)
  {
    assert longer[n] == run[n];
  }

  ghost predicate AllDrained(s: State) {
    s.locks == map[] && forall r | 0 <= r < |s.reqs| :: s.reqs[r].pc.Left?
  }

  lemma AllLeft(store: set<(Prefix, Suffix)>, run: seq<Action>)
    requires Legal(Start(store), run)
    requires forall r | 0 <= r < |Exec(Start(store), run).reqs| :: Exec(Start(store), run).reqs[r].pc.Left?
    ensures AllDrained(Exec(Start(store), run))
  {
    forall p
      ensures p !in Exec(Start(store), run).locks
    {
      SlotIsFreedExactlyWhenDrained(store, run, p);
    }
  }

  /** However the run has gone so far, the requests present can all leave, and then the map is empty. */
  lemma {:induction false} QueueDrains(store: set<(Prefix, Suffix)>, run: seq<Action>) returns (longer: seq<Action>)
    requires Legal(Start(store), run)
    ensures Legal(Start(store), longer) && run <= longer && NoneArrive(longer, |run|)
    ensures AllDrained(Exec(Start(store), longer))
    decreases TotalWork(Exec(Start(store), run).reqs)
  {
    var s := Exec(Start(store), run);
    if last :| 0 <= last < |s.reqs| && !s.reqs[last].pc.Left? {
      var next := DrainStep(store, run, last);
      longer := QueueDrains(store, next);
      NoneArriveSooner(next, longer, |run|);
    } else {
      longer := run;
      AllLeft(store, run);
    }
  }

  // Counting.

  /** How many of the first `n` requests for the prefix have been allowed. */
  function Granted(reqs: seq<Req>, p: Prefix, n: nat): nat
    requires n <= |reqs|
  {
    if n == 0 then 0
    else Granted(reqs, p, n - 1) + if reqs[n - 1].prefix == p && reqs[n - 1].pc.Grants() then 1 else 0
  }

  lemma {:induction false} GrantedUnchanged(reqs: seq<Req>, reqs': seq<Req>, p: Prefix, n: nat)
    requires n <= |reqs| && n <= |reqs'|
    requires forall r | 0 <= r < n :: reqs'[r].prefix == reqs[r].prefix
    requires forall r | 0 <= r < n && reqs[r].prefix == p :: reqs'[r].pc.Grants() <==> reqs[r].pc.Grants()
    ensures Granted(reqs', p, n) == Granted(reqs, p, n)
  {
    if n > 0 {
      GrantedUnchanged(reqs, reqs', p, n - 1);
    }
  }

  lemma {:induction false} NoGrantsAfter(reqs: seq<Req>, p: Prefix, m: nat, n: nat)
    requires m <= n <= |reqs| && forall r | m <= r < n && reqs[r].prefix == p :: !reqs[r].pc.Grants()
    ensures Granted(reqs, p, n) == Granted(reqs, p, m)
  {
    if m < n {
      NoGrantsAfter(reqs, p, m, n - 1);
    }
  }

  /** The keys under the prefix are those found at the start plus one for each allowed request. */
  ghost predicate StoreOk(s: State, store: set<(Prefix, Suffix)>, p: Prefix) {
    |Listed(s.store, p)| == |Listed(store, p)| + Granted(s.reqs, p, |s.reqs|)
  }

  ghost predicate CountOk(s: State, store: set<(Prefix, Suffix)>, r: nat)
    requires r < |s.reqs|
  {
    var q := s.reqs[r];
    && (q.pc.Writing? ==> q.pc.existing == |Listed(s.store, q.prefix)| < LIMIT)
    && (q.pc.Grants() ==> q.pc.result.count == |Listed(store, q.prefix)| + Granted(s.reqs, q.prefix, r) + 1 <= LIMIT)
  }

  ghost predicate CountInv(s: State, store: set<(Prefix, Suffix)>) {
    && (forall p :: StoreOk(s, store, p))
    && (forall r | 0 <= r < |s.reqs| :: CountOk(s, store, r))
  }

  /** Only a successful write changes who has been allowed. */
  lemma OtherStepKeepsCounts(s: State, a: Action, store: set<(Prefix, Suffix)>)
    requires Enabled(s, a) && LockInv(s) && CountInv(s, store) && !(a.Put? && a.ok)
    ensures CountInv(Apply(s, a), store)
  {
    var t := Apply(s, a);
    forall p
      ensures StoreOk(t, store, p)
    {
      assert StoreOk(s, store, p);
      GrantedUnchanged(s.reqs, t.reqs, p, |s.reqs|);
      NoGrantsAfter(t.reqs, p, |s.reqs|, |t.reqs|);
    }
    forall r | 0 <= r < |t.reqs|
      ensures CountOk(t, store, r)
    {
      if r < |s.reqs| {
        assert CountOk(s, store, r);
        GrantedUnchanged(s.reqs, t.reqs, t.reqs[r].prefix, r);
      }
    }
  }

  lemma ListedAfterPut(store: set<(Prefix, Suffix)>, k: (Prefix, Suffix), p: Prefix)
    requires k !in store
    ensures |Listed(store + {k}, p)| == |Listed(store, p)| + if k.0 == p then 1 else 0
  {
    if k.0 == p {
      assert Listed(store + {k}, p) == Listed(store, p) + {k};
    } else {
      assert Listed(store + {k}, p) == Listed(store, p);
    }
  }

  /** The number of grants before the writer, and after its write. */
  lemma GrantedAfterPut(s: State, a: Action, p: Prefix)
    requires Enabled(s, a) && LockInv(s) && a.Put? && a.ok
    ensures var t := Apply(s, a);
            && (p == s.reqs[a.r].prefix ==> Granted(s.reqs, p, |s.reqs|) == Granted(s.reqs, p, a.r))
            && Granted(t.reqs, p, |t.reqs|) == Granted(s.reqs, p, |s.reqs|) + if p == s.reqs[a.r].prefix then 1 else 0
  {
    var t := Apply(s, a);
    if p == s.reqs[a.r].prefix {
      forall q | a.r < q < |s.reqs| && s.reqs[q].prefix == p
        ensures s.reqs[q].pc.Waiting?
      {
        assert InTurn(s.reqs, q);
      }
      NoGrantsAfter(s.reqs, p, a.r, |s.reqs|);
      NoGrantsAfter(t.reqs, p, a.r + 1, |t.reqs|);
      GrantedUnchanged(s.reqs, t.reqs, p, a.r);
    } else {
      GrantedUnchanged(s.reqs, t.reqs, p, |s.reqs|);
    }
  }

  lemma PutKeepsCount(s: State, a: Action, store: set<(Prefix, Suffix)>, r: nat)
    requires Enabled(s, a) && LockInv(s) && CountInv(s, store) && a.Put? && a.ok && r < |s.reqs|
    ensures CountOk(Apply(s, a), store, r)
  {
    var t := Apply(s, a);
    var w, q := s.reqs[a.r], s.reqs[r];
    assert CountOk(s, store, r) && CountOk(s, store, a.r) && InTurn(s.reqs, a.r) && InTurn(s.reqs, r);
    if q.prefix != w.prefix || r <= a.r {
      GrantedUnchanged(s.reqs, t.reqs, q.prefix, r);
    }
    ListedAfterPut(s.store, (w.prefix, a.suffix), q.prefix);
    if r == a.r {
      assert StoreOk(s, store, w.prefix);
      GrantedAfterPut(s, a, w.prefix);
    }
  }

  lemma PutKeepsCounts(s: State, a: Action, store: set<(Prefix, Suffix)>)
    requires Enabled(s, a) && LockInv(s) && CountInv(s, store) && a.Put? && a.ok
    ensures CountInv(Apply(s, a), store)
  {
    var t := Apply(s, a);
    forall p
      ensures StoreOk(t, store, p)
    {
      assert StoreOk(s, store, p);
      GrantedAfterPut(s, a, p);
      ListedAfterPut(s.store, (s.reqs[a.r].prefix, a.suffix), p);
    }
    forall r | 0 <= r < |t.reqs|
      ensures CountOk(t, store, r)
    {
      PutKeepsCount(s, a, store, r);
    }
  }

  lemma {:induction false} RunKeepsCounts(store: set<(Prefix, Suffix)>, run: seq<Action>)
    requires Legal(Start(store), run)
    ensures CountInv(Exec(Start(store), run), store)
  {
    if run != [] {
      var before, a := run[..|run| - 1], run[|run| - 1];
      RunKeepsCounts(store, before);
      RunKeepsLockInv(store, before);
      if a.Put? && a.ok {
        PutKeepsCounts(Exec(Start(store), before), a, store);
      } else {
        OtherStepKeepsCounts(Exec(Start(store), before), a, store);
      }
    }
  }

  /** In every interleaving the allowed requests of a bucket are told consecutive counts in order of arrival,
      starting after the keys found there, and no count exceeds the limit. */
  lemma CountsAreConsecutive(store: set<(Prefix, Suffix)>, run: seq<Action>, r: nat)
    requires Legal(Start(store), run) && r < |Exec(Start(store), run).reqs|
    requires Exec(Start(store), run).reqs[r].pc.Grants()
    ensures var s := Exec(Start(store), run);
            var q := s.reqs[r];
            q.pc.result.count == |Listed(store, q.prefix)| + Granted(s.reqs, q.prefix, r) + 1 <= 5
  {
    RunKeepsCounts(store, run);
    assert CountOk(Exec(Start(store), run), store, r);
  }

  /** A bucket never holds more keys than the limit, unless it did at the start. */
  lemma BucketNeverExceedsLimit(store: set<(Prefix, Suffix)>, run: seq<Action>, p: Prefix)
    requires Legal(Start(store), run)
    ensures var n, m := |Listed(store, p)|, |Listed(Exec(Start(store), run).store, p)|;
            n <= m && (m <= 5 || m == n)
  {
    var s := Exec(Start(store), run);
    RunKeepsCounts(store, run);
    assert StoreOk(s, store, p);
    LastGrant(s, store, p, |s.reqs|);
  }

  /** A request that is denied has been told how many keys its bucket holds, of 6 at most, and there are at least 5. */
  ghost predicate DenialOk(s: State, r: nat)
    requires r < |s.reqs|
  {
    var pc, n := s.reqs[r].pc, |Listed(s.store, s.reqs[r].prefix)|;
    (pc.Leaving? || pc.Left?) && pc.result.Denied? ==> n >= 5 && pc.result.count == if n <= 6 then n else 6
  }

  lemma FullStaysSo(s: State, a: Action, store: set<(Prefix, Suffix)>, p: Prefix)
    requires Enabled(s, a) && CountInv(s, store) && |Listed(s.store, p)| >= 5
    ensures |Listed(Apply(s, a).store, p)| == |Listed(s.store, p)|
  {
    if a.Put? && a.ok {
      assert CountOk(s, store, a.r);
      ListedAfterPut(s.store, (s.reqs[a.r].prefix, a.suffix), p);
    }
  }

  lemma StepKeepsDenial(s: State, a: Action, store: set<(Prefix, Suffix)>, r: nat)
    requires Enabled(s, a) && CountInv(s, store) && r < |s.reqs| && DenialOk(s, r)
    ensures DenialOk(Apply(s, a), r)
  {
    if |Listed(s.store, s.reqs[r].prefix)| >= 5 {
      FullStaysSo(s, a, store, s.reqs[r].prefix);
    }
  }

  /** In every interleaving a request is denied only if its bucket holds 5 keys, and is told their number. */
  lemma {:induction false} DeniedOnlyWhenFull(store: set<(Prefix, Suffix)>, run: seq<Action>, r: nat)
    requires Legal(Start(store), run) && r < |Exec(Start(store), run).reqs|
    ensures DenialOk(Exec(Start(store), run), r)
  {
    if run != [] {
      var before := run[..|run| - 1];
      var s := Exec(Start(store), before);
      if r < |s.reqs| {
        DeniedOnlyWhenFull(store, before, r);
        RunKeepsCounts(store, before);
        StepKeepsDenial(s, run[|run| - 1], store, r);
      }
    }
  }

  lemma {:induction false} LastGrant(s: State, store: set<(Prefix, Suffix)>, p: Prefix, n: nat)
    requires CountInv(s, store) && n <= |s.reqs|
    ensures Granted(s.reqs, p, n) > 0 ==> |Listed(store, p)| + Granted(s.reqs, p, n) <= LIMIT
  {
    if n > 0 {
      LastGrant(s, store, p, n - 1);
      assert CountOk(s, store, n - 1);
    }
  }
}
