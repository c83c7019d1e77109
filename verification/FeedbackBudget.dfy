/** The worker and its limiter together: a race on one key cannot create more issues than the limiter grants. */
module FeedbackBudget {
  import opened Prelude
  import opened FeedbackProtocol
  import opened FeedbackSafety
  import Limiter = RateLimit

  /** The verdicts of the run are the limiter's: every slot used is a grant of its own, for the request's bucket. */
  ghost predicate Granting(s: State, l: Limiter.State, bucketOf: nat -> Limiter.Prefix, ticket: nat -> nat) {
    && (forall r | r in s.slots :: IsGrant(l, ticket(r), bucketOf(r)))
    && forall r, r' | r in s.slots && r' in s.slots && ticket(r) == ticket(r') :: r == r'
  }

  predicate IsGrant(l: Limiter.State, t: nat, p: Limiter.Prefix) {
    t < |l.reqs| && l.reqs[t].prefix == p && l.reqs[t].pc.Grants()
  }

  function Grants(l: Limiter.State, p: Limiter.Prefix, n: nat): set<nat> {
    set t: nat | t < n && IsGrant(l, t, p)
  }

  function IssuesOf(s: State, bucketOf: nat -> Limiter.Prefix, p: Limiter.Prefix): set<nat> {
    set i: nat | i < |s.issues| && bucketOf(s.issues[i].creator) == p
  }

  lemma {:induction false} GrantsAreCounted(l: Limiter.State, p: Limiter.Prefix, n: nat)
    requires n <= |l.reqs|
    ensures |Grants(l, p, n)| == Limiter.Granted(l.reqs, p, n)
  {
    if n > 0 {
      GrantsAreCounted(l, p, n - 1);
      if IsGrant(l, n - 1, p) {
        assert Grants(l, p, n) == Grants(l, p, n - 1) + {n - 1};
      } else {
        assert Grants(l, p, n) == Grants(l, p, n - 1);
      }
    } else {
      assert Grants(l, p, 0) == {};
    }
  }

  /** In every pair of runs of worker and limiter, however requests race, the issues of one client and hour are at
      most as many as the limit less what the bucket held before. */
  lemma IssuesWithinBudget(run: seq<Action>, store: set<(Limiter.Prefix, Limiter.Suffix)>, calls: seq<Limiter.Action>,
                           bucketOf: nat -> Limiter.Prefix, ticket: nat -> nat, p: Limiter.Prefix)
    requires Legal(INITIAL, run) && Limiter.Legal(Limiter.Start(store), calls)
    requires Granting(Exec(INITIAL, run), Limiter.Exec(Limiter.Start(store), calls), bucketOf, ticket)
    ensures var issues := IssuesOf(Exec(INITIAL, run), bucketOf, p);
            issues != {} ==> |issues| + |Limiter.Listed(store, p)| <= 5
  {
    var s, l := Exec(INITIAL, run), Limiter.Exec(Limiter.Start(store), calls);
    EveryInterleavingIsSafe(run);
    EachIssueHasAGrant(s, l, bucketOf, ticket, p);
    GrantsAreCounted(l, p, |l.reqs|);
    Limiter.RunKeepsCounts(store, calls);
    Limiter.LastGrant(l, store, p, |l.reqs|);
  }

  lemma EachIssueHasAGrant(s: State, l: Limiter.State, bucketOf: nat -> Limiter.Prefix, ticket: nat -> nat,
                           p: Limiter.Prefix)
    requires EffectsAreEarned(s) && Granting(s, l, bucketOf, ticket)
    ensures |IssuesOf(s, bucketOf, p)| <= |Grants(l, p, |l.reqs|)|
  {
    var issues, grants := IssuesOf(s, bucketOf, p), Grants(l, p, |l.reqs|);
    var grantOf: nat -> nat := (i: nat) => if i < |s.issues| then ticket(s.issues[i].creator) else 0;
    forall i | i in issues
      ensures grantOf(i) in grants
    {
      assert IsGrant(l, ticket(s.issues[i].creator), p);
    }
    Injects(issues, grants, grantOf);
  }
}
