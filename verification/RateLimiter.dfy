/** The rate limiter as code: its map of promises and the store are updated in place, and at every await other requests
    may do whatever the protocol in module RateLimit lets them.  What the object has done so far is a run of it. */
module RateLimiter {
  import opened Prelude
  import opened RateLimit

  lemma RunGrows(store: set<(Prefix, Suffix)>, run: seq<Action>, s: State, a: Action)
    requires Legal(Start(store), run) && Exec(Start(store), run) == s && Enabled(s, a)
    ensures Legal(Start(store), run + [a]) && Exec(Start(store), run + [a]) == Apply(s, a)
  {
    assert (run + [a])[..|run|] == run;
  }

  function AtMost(n: nat, most: nat): nat {
    if n <= most then n else most
  }

  /** What a call does to the store: its own key for the next count up to the limit, or nothing. */
  predicate Outcome(before: set<(Prefix, Suffix)>, after: set<(Prefix, Suffix)>, p: Prefix, result: Result) {
    match result
    case Allowed(n) =>
      && n == |Listed(before, p)| + 1 <= 5
      && exists x :: x in after && x !in before && x.0 == p && after == before + {x}
    case Denied(n) =>
      && |Listed(before, p)| >= 5 && after == before
      && n == if |Listed(before, p)| <= 6 then |Listed(before, p)| else 6
    case Threw => after == before
  }

  class Limiter {
    var prefixLocks: map<Prefix, nat>
    var store: set<(Prefix, Suffix)>
    var served: nat // names the promise of the next request
    ghost const found: set<(Prefix, Suffix)> // the store when the isolate started
    ghost var reqs: seq<Req>
    ghost var run: seq<Action>

    ghost function World(): State
      reads this
    {
      State(prefixLocks, store, reqs)
    }

    ghost predicate Faithful()
      reads this
    {
      Legal(Start(found), run) && Exec(Start(found), run) == World() && served == |reqs|
    }

    ghost predicate At(me: nat, prefix: Prefix, pc: Pc)
      reads this
    {
      me < |reqs| && reqs[me].prefix == prefix && reqs[me].pc == pc
    }

    /** No request is inside. */
    ghost predicate Quiet()
      reads this
    {
      prefixLocks == map[] && forall r | 0 <= r < |reqs| :: reqs[r].pc.Left?
    }

    /** Request `me`, the latest, is the only one inside. */
    ghost predicate Alone(me: nat, prefix: Prefix)
      reads this
    {
      && me == |reqs| - 1 && prefixLocks == map[prefix := me] && reqs[me].previous == None
      && forall r | 0 <= r < me :: reqs[r].pc.Left?
    }

    constructor (store: set<(Prefix, Suffix)>)
      ensures Faithful() && Quiet() && this.store == store == found
    {
      prefixLocks, this.store, served := map[], store, 0;
      found, reqs, run := store, [], [];
    }

    /** Other requests run.  Callers know nothing but this contract: any steps that leave `me` where it is. */
    method Await(me: nat)
      requires Faithful() && me < |reqs|
      modifies this
      ensures Faithful() && old(run) <= run && me < |reqs| && reqs[me] == old(reqs[me])
    {
    }

    /** Waits for the promise found in the map; `settled` is false if it never settles. */
    method AwaitPrevious(me: nat, previous: Option<nat>) returns (settled: bool)
      requires Faithful() && me < |reqs| && reqs[me].previous == previous
      modifies this
      ensures Faithful() && old(run) <= run && me < |reqs| && reqs[me] == old(reqs[me])
      ensures settled ==> Settled(reqs, previous)
      ensures previous.None? ==> settled
    {
      Await(me);
      settled := previous.None?;
    }

    /** Leaves a promise in the map in place of the one found there. */
    method Enter(prefix: Prefix) returns (me: nat, previous: Option<nat>)
      requires Faithful()
      modifies `prefixLocks, `served, `reqs, `run
      ensures Faithful() && old(run) <= run && me == |old(reqs)| && At(me, prefix, Waiting)
      ensures reqs[me].previous == previous && (old(Quiet()) ==> Alone(me, prefix))
    {
      me := served;
      RunGrows(found, run, World(), RateLimit.Enter(prefix));
      previous := if prefix in prefixLocks then Some(prefixLocks[prefix]) else None;
      prefixLocks, served := prefixLocks[prefix := me], served + 1;
      reqs, run := reqs + [Req(prefix, previous, Waiting)], run + [RateLimit.Enter(prefix)];
    }

    method Acquire(prefix: Prefix, me: nat)
      requires Faithful() && At(me, prefix, Waiting) && Settled(reqs, reqs[me].previous)
      modifies `reqs, `run
      ensures Faithful() && old(run) <= run && At(me, prefix, Holding) && (old(Alone(me, prefix)) ==> Alone(me, prefix))
    {
      RunGrows(found, run, World(), RateLimit.Acquire(me));
      reqs, run := reqs[me := reqs[me].(pc := Holding)], run + [RateLimit.Acquire(me)];
    }

    method ListKeys(prefix: Prefix, me: nat, healthy: bool) returns (existing: Option<nat>)
      requires Faithful() && At(me, prefix, Holding)
      modifies `reqs, `run
      ensures Faithful() && old(run) <= run && (old(Alone(me, prefix)) ==> Alone(me, prefix))
      ensures match existing
              case None => At(me, prefix, Leaving(Threw))
              case Some(n) => && n == AtMost(|Listed(store, prefix)|, LIMIT + 1)
                              && At(me, prefix, if n >= LIMIT then Leaving(Denied(n)) else Writing(n))
      ensures healthy ==> existing.Some?
    {
      var ok: bool :| healthy ==> ok;
      ghost var a := List(me, ok);
      RunGrows(found, run, World(), a);
      reqs, run := Apply(World(), a).reqs, run + [a];
      var n := |Listed(store, prefix)|;
      existing := if ok then Some(AtMost(n, LIMIT + 1)) else None;
    }

    /** A random suffix is one not in use. */
    method DrawSuffix(prefix: Prefix) returns (suffix: Suffix)
      ensures (prefix, suffix) !in store
    {
      var rest := store;
      suffix := "0";
      while rest != {}
        invariant rest <= store && forall k | k in store - rest :: |k.1| < |suffix|
        decreases rest
      {
        var k :| k in rest;
        rest := rest - {k};
        if |k.1| >= |suffix| {
          suffix := k.1 + "0";
        }
      }
    }

    method PutKey(prefix: Prefix, me: nat, existing: nat, healthy: bool) returns (ok: bool)
      requires Faithful() && At(me, prefix, Writing(existing))
      modifies `store, `reqs, `run
      ensures Faithful() && old(run) <= run && (old(Alone(me, prefix)) ==> Alone(me, prefix))
      ensures At(me, prefix, Leaving(if ok then Allowed(existing + 1) else Threw))
      ensures if ok then exists x :: x in store && x !in old(store) && x.0 == prefix && store == old(store) + {x}
              else store == old(store)
      ensures healthy ==> ok
    {
      var suffix := DrawSuffix(prefix);
      ok :| healthy ==> ok;
      ghost var a := Put(me, suffix, ok);
      RunGrows(found, run, World(), a);
      reqs, run := Apply(World(), a).reqs, run + [a];
      if ok {
        store := store + {(prefix, suffix)};
        assert (prefix, suffix) in store;
      }
    }

    /** Releases the promise and frees the slot if nobody has queued behind it. */
    method Leave(prefix: Prefix, me: nat, ghost result: Result)
      requires Faithful() && At(me, prefix, Leaving(result))
      modifies `prefixLocks, `reqs, `run
      ensures Faithful() && old(run) <= run && At(me, prefix, Left(result)) && (old(Alone(me, prefix)) ==> Quiet())
    {
      ghost var a := Release(me);
      RunGrows(found, run, World(), a);
      reqs, run := reqs[me := reqs[me].(pc := Left(result))], run + [a];
      if prefix in prefixLocks && prefixLocks[prefix] == me {
        prefixLocks := prefixLocks - {prefix};
      }
    }

    /** Inside the lock: counts the keys of the bucket and adds one of its own unless there are enough.  `calm` says
        that nobody else did anything meanwhile. */
    method Decide(prefix: Prefix, me: nat, healthy: bool) returns (result: Result, ghost calm: bool)
      requires Faithful() && At(me, prefix, Holding)
      modifies this
      ensures Faithful() && old(run) <= run && At(me, prefix, Leaving(result))
      ensures calm && old(Alone(me, prefix)) ==> Alone(me, prefix)
      ensures calm ==> Outcome(old(store), store, prefix, result)
      ensures healthy ==> !result.Threw?
    {
      var existing := ListKeys(prefix, me, healthy);
      ghost var listed := run;
      Await(me);
      calm := run == listed;
      if existing.None? {
        result := Threw;
      } else if existing.value >= LIMIT {
        result := Denied(existing.value);
      } else {
        var written := PutKey(prefix, me, existing.value, healthy);
        ghost var put := run;
        Await(me);
        calm := calm && run == put;
        result := if written then Allowed(existing.value + 1) else Threw;
      }
    }

    /** One call among any number.  Its promise may never settle; otherwise the lock is released, and an allowed call is
        told its place in the bucket.  If nobody else is inside, what it does to the store is exact.  If `healthy`, no
        call on the store throws. */
    method CheckRateLimit(prefix: Prefix, healthy: bool) returns (outcome: Option<Result>, me: nat, ghost calm: bool)
      requires Faithful()
      modifies this
      ensures Faithful() && old(run) <= run && me == |old(reqs)|
      ensures if outcome.Some? then At(me, prefix, Left(outcome.value)) else At(me, prefix, Waiting)
      ensures outcome.Some? && outcome.value.Allowed? ==>
                outcome.value.count == |Listed(found, prefix)| + Granted(reqs, prefix, me) + 1 <= 5
      ensures calm && old(Quiet()) ==>
                outcome.Some? && Quiet() && Outcome(old(store), store, prefix, outcome.value)
      ensures healthy && outcome.Some? ==> !outcome.value.Threw?
    {
      var previous;
      me, previous := Enter(prefix);
      ghost var entered := run;
      var settled := AwaitPrevious(me, previous);
      calm := run == entered;
      if !settled {
        return None, me, calm;
      }
      Acquire(prefix, me);
      var result;
      ghost var undisturbed;
      result, undisturbed := Decide(prefix, me, healthy);
      calm := calm && undisturbed;
      Leave(prefix, me, result);
      outcome := Some(result);
      if result.Allowed? {
        CountsAreConsecutive(found, run, me);
      }
    }
  }
}
