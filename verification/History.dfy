/**
 The counters of the nodes against the events that happened, over every run.
 */
module History {
  import opened FailoverModel
  import opened FailoverInvariants
  import opened FailoverRuns
  import opened AtomicRuns

  /** The failures of `x` since it last answered or passed a health check. */
  function ErrorStreak(es: seq<Event>, x: nat): nat {
    if es == [] then 0
    else
      var e, before := es[|es| - 1], ErrorStreak(es[..|es| - 1], x);
      if IsFailure(e) && e.i == x then before + 1
      else if e == Answered(x) || e == Verdict(x, true) then 0
      else before
  }

  /** The health checks `x` has passed since it last failed a check or a request. */
  function SuccessStreak(es: seq<Event>, x: nat): nat {
    if es == [] then 0
    else
      var e, before := es[|es| - 1], SuccessStreak(es[..|es| - 1], x);
      if e == Verdict(x, true) then before + 1
      else if e == Verdict(x, false) || (IsFailure(e) && e.i == x) then 0
      else before
  }

  predicate IsSend(e: Event) {
    e.Attempted? || e.Upgraded?
  }

  function Sends(es: seq<Event>, x: nat): nat {
    if es == [] then 0
    else
      Sends(es[..|es| - 1], x) + (if IsSend(es[|es| - 1]) && es[|es| - 1].i == x then 1 else 0)
  }

  function Failures(es: seq<Event>, x: nat): nat {
    if es == [] then 0
    else
      Failures(es[..|es| - 1], x) + (if IsFailure(es[|es| - 1]) && es[|es| - 1].i == x then 1 else 0)
  }

  lemma LegalPrefix(cfg: Config, s: State, es: seq<Event>)
    requires Legal(cfg, s, es) && es != []
    ensures Legal(cfg, s, es[..|es| - 1])
    ensures Enabled(Run(cfg, s, es[..|es| - 1]), es[|es| - 1])
  {
    var p := es[..|es| - 1];
    forall k | 0 <= k < |p| ensures Enabled(Run(cfg, s, p[..k]), p[k]) {
      assert p[..k] == es[..k];
    }
  }

  /** What one enabled event does to the counters of `x`. */
  lemma StepCounters(cfg: Config, s: State, e: Event, x: nat)
    requires Inv(s) && Enabled(s, e) && x < |s.nodes|
    ensures |Step(cfg, s, e).nodes| == |s.nodes|
    ensures var n, m := s.nodes[x], Step(cfg, s, e).nodes[x];
      && m.requests == n.requests + (if IsSend(e) && e.i == x then 1 else 0)
      && m.failures == n.failures + (if IsFailure(e) && e.i == x then 1 else 0)
      && m.successes == (if e == Verdict(x, true) then n.successes + 1
                         else if e == Verdict(x, false) || (IsFailure(e) && e.i == x) then 0
                         else n.successes)
      && m.errors == (if IsFailure(e) && e.i == x then n.errors + 1
                      else if e == Answered(x) || e == Verdict(x, true) then 0
                      else if e.RoundCommitted? && CommitClears(cfg, s.nodes, s.phase.healthy, x) then 0
                      else n.errors)
  {
    if e.RoundCommitted? {
      CommittedState(cfg, s);
    }
  }

  /** In every legal run the success, request and failure counters of a node are what its
      history says. */
  lemma {:induction false} CountersAreHistory(cfg: Config, s: State, es: seq<Event>, x: nat)
    requires Started(s) && Legal(cfg, s, es) && x < |s.nodes|
    ensures |Run(cfg, s, es).nodes| == |s.nodes|
    ensures var node := Run(cfg, s, es).nodes[x];
      && node.successes == SuccessStreak(es, x)
      && node.requests == Sends(es, x)
      && node.failures == Failures(es, x)
  {
    if es != [] {
      var p, e := es[..|es| - 1], es[|es| - 1];
      LegalPrefix(cfg, s, es);
      CountersAreHistory(cfg, s, p, x);
      ReachableInv(cfg, s, p);
      StepCounters(cfg, Run(cfg, s, p), e, x);
    }
  }

  // ---------------------------------------------------------------- the error counter

  predicate Resets(e: Event, x: nat) {
    e == Answered(x) || e == Verdict(x, true)
  }

  /** The commit of a round sets the error counter of `x` to 0. */
  ghost predicate ClearedBy(cfg: Config, s: State, e: Event, x: nat) {
    e.RoundCommitted? && Enabled(s, e) && x < |s.nodes| && CommitClears(cfg, s.nodes, s.phase.healthy, x)
  }

  /** The failures of `x` since it last answered, passed a health check or had its counter
      cleared by a commit. */
  ghost function CountedErrors(cfg: Config, s: State, es: seq<Event>, x: nat): nat {
    if es == [] then 0
    else
      var p, e := es[..|es| - 1], es[|es| - 1];
      if IsFailure(e) && e.i == x then CountedErrors(cfg, s, p, x) + 1
      else if Resets(e, x) || ClearedBy(cfg, Run(cfg, s, p), e, x) then 0
      else CountedErrors(cfg, s, p, x)
  }

  /** A commit wipes failures that the history still counts. */
  ghost predicate Wipes(cfg: Config, s: State, e: Event, x: nat) {
    ClearedBy(cfg, s, e, x) && s.nodes[x].errors > 0
  }

  /** Some commit has wiped failures of `x`, which has neither answered nor passed a check since. */
  ghost predicate Wiped(cfg: Config, s: State, es: seq<Event>, x: nat) {
    es != [] &&
    var p, e := es[..|es| - 1], es[|es| - 1];
    !Resets(e, x) && (Wipes(cfg, Run(cfg, s, p), e, x) || Wiped(cfg, s, p, x))
  }

  /** In every legal run, rounds and requests interleaved in any way, the error counter is the
      number of failures since the last answer, passed check or clearing commit. It is the
      failure streak of the history exactly when no commit has wiped failures since the last
      answer or passed check, and it is lower than the streak otherwise. */
  lemma {:induction false} ErrorsAreHistory(cfg: Config, s: State, es: seq<Event>, x: nat)
    requires Started(s) && Legal(cfg, s, es) && x < |s.nodes|
    ensures |Run(cfg, s, es).nodes| == |s.nodes|
    ensures Run(cfg, s, es).nodes[x].errors == CountedErrors(cfg, s, es, x)
    ensures if Wiped(cfg, s, es, x)
      then CountedErrors(cfg, s, es, x) < ErrorStreak(es, x)
      else CountedErrors(cfg, s, es, x) == ErrorStreak(es, x)
  {
    if es != [] {
      var p, e := es[..|es| - 1], es[|es| - 1];
      LegalPrefix(cfg, s, es);
      ErrorsAreHistory(cfg, s, p, x);
      ReachableInv(cfg, s, p);
      StepCounters(cfg, Run(cfg, s, p), e, x);
    }
  }

  /** A commit makes the counter and the streak part exactly when it clears a positive counter. */
  lemma CommitParts(cfg: Config, s: State, es: seq<Event>, t: State, x: nat)
    requires Reached(cfg, s, es, t) && Legal(cfg, s, es) && Enabled(t, RoundCommitted)
    requires x < |t.nodes| && t.nodes[x].errors == ErrorStreak(es, x)
    ensures |Commit(cfg, t).nodes| == |t.nodes|
    ensures Commit(cfg, t).nodes[x].errors != ErrorStreak(es + [RoundCommitted], x) <==>
      CommitClears(cfg, t.nodes, t.phase.healthy, x) && t.nodes[x].errors > 0
  {
    ReachableInv(cfg, s, es);
    StepCounters(cfg, t, RoundCommitted, x);
    assert (es + [RoundCommitted])[..|es|] == es;
  }

  /** A node of the running round with errors has failed since its check. */
  ghost predicate FailedSinceCheck(s: State) {
    forall i :: 0 <= i < |s.nodes| && Collected(s, i) && s.nodes[i].errors > 0 ==> s.nodes[i].successes == 0
  }

  lemma StepKeepsFailedSinceCheck(cfg: Config, s: State, e: Event)
    requires Inv(s) && FailedSinceCheck(s)
    ensures FailedSinceCheck(Step(cfg, s, e))
  {
    if Enabled(s, e) && e.RoundCommitted? {
      assert Commit(cfg, s).phase == Idle;
    }
  }

  lemma {:induction false} ReachableFailedSinceCheck(cfg: Config, s: State, es: seq<Event>)
    requires Started(s)
    ensures FailedSinceCheck(Run(cfg, s, es))
  {
    if es != [] {
      ReachableFailedSinceCheck(cfg, s, es[..|es| - 1]);
      ReachableInv(cfg, s, es[..|es| - 1]);
      StepKeepsFailedSinceCheck(cfg, Run(cfg, s, es[..|es| - 1]), es[|es| - 1]);
    }
  }

  /** What a commit wipes: it promotes a node that has failed since its check. The failback
      branch never wipes anything. */
  lemma WipesIff(cfg: Config, s: State, es: seq<Event>, t: State, x: nat)
    requires Reached(cfg, s, es, t) && cfg.failbackChecks >= 1 && Enabled(t, RoundCommitted) && x < |t.nodes|
    ensures Wipes(cfg, t, RoundCommitted, x) <==>
      && t.nodes[x].errors > 0
      && FirstPrimary(t.nodes) == |t.nodes| && !Returns(t.nodes, t.phase.healthy)
      && Highest(t.nodes, t.phase.healthy, x)
  {
    ReachableInv(cfg, s, es);
    ReachableFailedSinceCheck(cfg, s, es);
    OriginalIsFirst(t.nodes);
    assert Returns(t.nodes, t.phase.healthy) ==> Collected(t, 0) by {
      if Returns(t.nodes, t.phase.healthy) {
        ReturnIsHighest(t.nodes, t.phase.healthy);
      }
    }
  }

  /** With atomic rounds nothing is ever wiped, so the counter is the streak. */
  lemma {:induction false} AtomicErrorsAreHistory(cfg: Config, s: State, es: seq<Event>, x: nat)
    requires Started(s) && Legal(cfg, s, es) && Atomic(cfg, s, es) && x < |s.nodes|
    ensures !Wiped(cfg, s, es, x)
    ensures |Run(cfg, s, es).nodes| == |s.nodes| && Run(cfg, s, es).nodes[x].errors == ErrorStreak(es, x)
  {
    if es != [] {
      var p := es[..|es| - 1];
      LegalPrefix(cfg, s, es);
      AtomicPrefix(cfg, s, es);
      AtomicErrorsAreHistory(cfg, s, p, x);
      ReachableInv(cfg, s, p);
      AtomicCleanRound(cfg, s, p);
      if es[|es| - 1].RoundCommitted? {
        ClearsClean(cfg, Run(cfg, s, p), x);
      }
    }
    ErrorsAreHistory(cfg, s, es, x);
  }

  /** With atomic rounds, what a commit resets is already clean. */
  lemma ClearsClean(cfg: Config, s: State, x: nat)
    requires Inv(s) && CleanRound(s) && Enabled(s, RoundCommitted) && x < |s.nodes|
    ensures CommitClears(cfg, s.nodes, s.phase.healthy, x) ==> s.nodes[x].errors == 0
  {
    var h := s.phase.healthy;
    if Returns(s.nodes, h) {
      ReturnIsHighest(s.nodes, h);
      assert Collected(s, 0);
    } else {
      assert Highest(s.nodes, h, x) ==> Collected(s, x);
    }
  }

  // ---------------------------------------------------------------- conservation

  function TotalRequests(nodes: seq<Node>): nat {
    if nodes == [] then 0 else TotalRequests(nodes[..|nodes| - 1]) + nodes[|nodes| - 1].requests
  }

  function TotalFailures(nodes: seq<Node>): nat {
    if nodes == [] then 0 else TotalFailures(nodes[..|nodes| - 1]) + nodes[|nodes| - 1].failures
  }

  function Count(es: seq<Event>, p: Event -> bool): nat {
    if es == [] then 0 else Count(es[..|es| - 1], p) + (if p(es[|es| - 1]) then 1 else 0)
  }

  /** Two node lists that agree everywhere but at `x`. */
  lemma {:induction false} TotalsDiffer(a: seq<Node>, b: seq<Node>, x: nat)
    requires |a| == |b|
    requires forall i :: 0 <= i < |a| && i != x ==> a[i].requests == b[i].requests && a[i].failures == b[i].failures
    ensures x < |a| ==> TotalRequests(b) + a[x].requests == TotalRequests(a) + b[x].requests
    ensures x < |a| ==> TotalFailures(b) + a[x].failures == TotalFailures(a) + b[x].failures
    ensures x >= |a| ==> TotalRequests(b) == TotalRequests(a) && TotalFailures(b) == TotalFailures(a)
  {
    if a != [] {
      TotalsDiffer(a[..|a| - 1], b[..|a| - 1], x);
    }
  }

  /** Nothing is lost or counted twice: requests are HTTP attempts and established WebSockets,
      failures are server errors and failed dials. */
  lemma {:induction false} Conservation(cfg: Config, s: State, es: seq<Event>)
    requires Started(s) && Legal(cfg, s, es)
    ensures var t := Run(cfg, s, es);
      && TotalRequests(t.nodes) == Count(es, (e: Event) => e.Attempted?) + Count(es, (e: Event) => e.Upgraded?)
      && TotalFailures(t.nodes) == Count(es, (e: Event) => e.ServerError?) + Count(es, (e: Event) => e.DialFailed?)
  {
    if es == [] {
      FreshTotals(s.nodes);
    } else {
      var p, e := es[..|es| - 1], es[|es| - 1];
      LegalPrefix(cfg, s, es);
      Conservation(cfg, s, p);
      ReachableInv(cfg, s, p);
      var m, t := Run(cfg, s, p), Run(cfg, s, es);
      NodesStay(cfg, s, es);
      NodesStay(cfg, s, p);
      forall i: nat | i < |m.nodes|
        ensures t.nodes[i].requests == m.nodes[i].requests + (if IsSend(e) && e.i == i then 1 else 0)
        ensures t.nodes[i].failures == m.nodes[i].failures + (if IsFailure(e) && e.i == i then 1 else 0)
      {
        StepCounters(cfg, m, e, i);
      }
      TotalsDiffer(m.nodes, t.nodes, if IsRequest(e) then e.i else |m.nodes|);
    }
  }

  lemma {:induction false} FreshTotals(nodes: seq<Node>)
    requires forall i :: 0 <= i < |nodes| ==> nodes[i].requests == 0 && nodes[i].failures == 0
    ensures TotalRequests(nodes) == 0 && TotalFailures(nodes) == 0
  {
    if nodes != [] {
      FreshTotals(nodes[..|nodes| - 1]);
    }
  }

  // ---------------------------------------------------------------- amortised demotions

  predicate DemotedBy(cfg: Config, s: State, e: Event, x: nat) {
    IsFailure(e) && e.i == x && Enabled(s, e) && Demotes(cfg, s, x)
  }

  /** In every reachable state a demotion is a failure that takes priority 0 from the node. */
  lemma DemotionIs(cfg: Config, s: State, es: seq<Event>, t: State, e: Event, x: nat)
    requires Reached(cfg, s, es, t) && x < |t.nodes|
    ensures DemotedBy(cfg, t, e, x) <==>
      && Enabled(t, e) && (e == ServerError(x) || e == DialFailed(x))
      && t.nodes[x].priority == 0 && Step(cfg, t, e).nodes[x].priority > 0
  {
    if Enabled(t, e) && (e == ServerError(x) || e == DialFailed(x)) {
      FailureEffect(cfg, s, es, t, e, x);
    }
  }

  /** How often `x` has been demoted. */
  function Demotions(cfg: Config, s: State, es: seq<Event>, x: nat): nat {
    if es == [] then 0
    else
      var p, e := es[..|es| - 1], es[|es| - 1];
      Demotions(cfg, s, p, x) +
        (if DemotedBy(cfg, Run(cfg, s, p), e, x) then 1 else 0)
  }

  /** The failures of `x` since its error counter was last known to be clean. */
  function Running(s: State, x: nat): nat
    requires x < |s.nodes|
  {
    if s.nodes[x].priority == 0 || (s.phase.Collecting? && x in s.phase.healthy) then s.nodes[x].errors else 0
  }

  lemma StepPays(cfg: Config, s: State, e: Event, x: nat)
    requires Inv(s) && x < |s.nodes| && s.nodes[x].failures >= Running(s, x)
    ensures |Step(cfg, s, e).nodes| == |s.nodes|
    ensures var n, m := s.nodes[x], Step(cfg, s, e).nodes[x];
      m.failures - Running(Step(cfg, s, e), x) >= n.failures - Running(s, x) +
        if DemotedBy(cfg, s, e, x) then cfg.errorThreshold else 0
  {
    if Enabled(s, e) && e.RoundCommitted? {
      CommittedState(cfg, s);
    }
  }

  lemma OneMore(t: nat, d: nat)
    ensures t * (d + 1) == t * d + t
  {
  }

  /** Every demotion of a node has cost `errorThreshold` failures of its own, and the failures
      a primary has accumulated count towards the next one only. Rounds may be interleaved
      with requests in any way. */
  lemma {:induction false} DemotionsArePaidFor(cfg: Config, s: State, es: seq<Event>, x: nat)
    requires Started(s) && x < |s.nodes|
    ensures |Run(cfg, s, es).nodes| == |s.nodes|
    ensures var t := Run(cfg, s, es);
      && t.nodes[x].failures >= cfg.errorThreshold * Demotions(cfg, s, es, x) + Running(t, x)
      && t.nodes[x].failures >= cfg.errorThreshold * Demotions(cfg, s, es, x)
           + (if t.nodes[x].priority == 0 then t.nodes[x].errors else 0)
  {
    NodesStay(cfg, s, es);
    if es == [] {
      assert Demotions(cfg, s, es, x) == 0;
    } else {
      var p, e := es[..|es| - 1], es[|es| - 1];
      DemotionsArePaidFor(cfg, s, p, x);
      ReachableInv(cfg, s, p);
      OneMore(cfg.errorThreshold, Demotions(cfg, s, p, x));
      PaysOneMore(cfg, Run(cfg, s, p), e, x, Demotions(cfg, s, p, x));
    }
  }

  lemma PaysOneMore(cfg: Config, s: State, e: Event, x: nat, d: nat)
    requires Inv(s) && x < |s.nodes| && s.nodes[x].failures >= cfg.errorThreshold * d + Running(s, x)
    ensures var t := Step(cfg, s, e);
      && |t.nodes| == |s.nodes|
      && t.nodes[x].failures >=
           cfg.errorThreshold * (if DemotedBy(cfg, s, e, x) then d + 1 else d) + Running(t, x)
  {
    OneMore(cfg.errorThreshold, d);
    StepPays(cfg, s, e, x);
  }
}
