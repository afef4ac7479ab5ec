/**
 Runs in which no request event falls inside a health round.
 */
module AtomicRuns {
  import opened FailoverModel
  import opened FailoverInvariants
  import opened FailoverRuns

  ghost predicate AtomicStep(s: State, e: Event) {
    IsRequest(e) ==> s.phase.Idle?
  }

  /** Every node that passed its check in the running round has a clean error counter. */
  ghost predicate CleanRound(s: State) {
    forall i :: 0 <= i < |s.nodes| && Collected(s, i) ==> s.nodes[i].errors == 0 && s.nodes[i].successes > 0
  }

  /** The running round is clean, and every node at priority 0 is below the error threshold. */
  ghost predicate ErrorsBelow(cfg: Config, s: State) {
    && (forall i :: 0 <= i < |s.nodes| && s.nodes[i].priority == 0 ==> s.nodes[i].errors < cfg.errorThreshold)
    && CleanRound(s)
  }

  ghost predicate OnePrimary(s: State) {
    forall i, j :: AtZero(s.nodes, i) && AtZero(s.nodes, j) ==> i == j
  }

  lemma StepKeepsCleanRound(cfg: Config, s: State, e: Event)
    requires Inv(s) && CleanRound(s) && AtomicStep(s, e)
    ensures CleanRound(Step(cfg, s, e))
  {
    if Enabled(s, e) && e.RoundCommitted? {
      assert Commit(cfg, s).phase == Idle;
    }
  }

  lemma StepKeepsErrorsBelow(cfg: Config, s: State, e: Event)
    requires Inv(s) && ErrorsBelow(cfg, s) && AtomicStep(s, e) && cfg.errorThreshold >= 1
    ensures ErrorsBelow(cfg, Step(cfg, s, e))
  {
    if Enabled(s, e) {
      match e
      case RoundCommitted => CommitKeepsErrorsBelow(cfg, s);
      case Verdict(i, ok) => assert IsBackup(s.nodes, i);
      case _ =>
    }
  }

  lemma CommitKeepsErrorsBelow(cfg: Config, s: State)
    requires Inv(s) && ErrorsBelow(cfg, s) && Enabled(s, RoundCommitted) && cfg.errorThreshold >= 1
    ensures ErrorsBelow(cfg, Commit(cfg, s))
  {
    CommittedState(cfg, s);
  }

  /** With threshold 1 the current primary always gives way to the configured one. */
  lemma ReturnYields(cfg: Config, s: State)
    requires Inv(s) && ErrorsBelow(cfg, s) && cfg.failbackChecks <= 1
    requires Enabled(s, RoundCommitted) && Returns(s.nodes, s.phase.healthy)
    ensures Yields(cfg, s.nodes, s.phase.healthy) <==> FirstPrimary(s.nodes) < |s.nodes|
    ensures 0 in s.phase.healthy && s.nodes[0].original == 0 && s.nodes[0].priority > 0
  {
    var h := s.phase.healthy;
    ReturnIsHighest(s.nodes, h);
    assert IsBackup(s.nodes, 0) && Collected(s, 0);
    var k :| 0 <= k < |h| && h[k] == 0;
  }

  lemma CommitKeepsOnePrimary(cfg: Config, s: State)
    requires Inv(s) && ErrorsBelow(cfg, s) && OnePrimary(s) && cfg.failbackChecks <= 1
    requires Enabled(s, RoundCommitted)
    ensures OnePrimary(Commit(cfg, s))
  {
    var t := Commit(cfg, s);
    forall i, j | AtZero(t.nodes, i) && AtZero(t.nodes, j) ensures i == j {
      if Returns(s.nodes, s.phase.healthy) {
        ReturnYields(cfg, s);
        ZeroOnReturn(cfg, s, i);
        ZeroOnReturn(cfg, s, j);
      } else {
        ZeroWithoutReturn(cfg, s, i);
        ZeroWithoutReturn(cfg, s, j);
        if FirstPrimary(s.nodes) == |s.nodes| {
          HighestIsUnique(s.nodes, s.phase.healthy, i, j);
        }
      }
    }
  }

  lemma StepKeepsOnePrimary(cfg: Config, s: State, e: Event)
    requires Inv(s) && ErrorsBelow(cfg, s) && OnePrimary(s) && cfg.failbackChecks <= 1
    ensures OnePrimary(Step(cfg, s, e))
  {
    if e.RoundCommitted? && Enabled(s, e) {
      CommitKeepsOnePrimary(cfg, s);
    } else {
      assert forall i :: AtZero(Step(cfg, s, e).nodes, i) ==> AtZero(s.nodes, i);
    }
  }

  // ---------------------------------------------------------------- runs

  lemma AtomicPrefix(cfg: Config, s: State, es: seq<Event>)
    requires Atomic(cfg, s, es) && es != []
    ensures Atomic(cfg, s, es[..|es| - 1])
    ensures AtomicStep(Run(cfg, s, es[..|es| - 1]), es[|es| - 1])
  {
    var p := es[..|es| - 1];
    forall k | 0 <= k < |p| && IsRequest(p[k]) ensures Run(cfg, s, p[..k]).phase.Idle? {
      assert p[..k] == es[..k];
    }
  }

  lemma {:induction false} AtomicCleanRound(cfg: Config, s: State, es: seq<Event>)
    requires Started(s) && Atomic(cfg, s, es)
    ensures CleanRound(Run(cfg, s, es))
  {
    if es != [] {
      var p := es[..|es| - 1];
      AtomicPrefix(cfg, s, es);
      AtomicCleanRound(cfg, s, p);
      ReachableInv(cfg, s, p);
      StepKeepsCleanRound(cfg, Run(cfg, s, p), es[|es| - 1]);
    }
  }

  lemma {:induction false} AtomicInv(cfg: Config, s: State, es: seq<Event>)
    requires Started(s) && Atomic(cfg, s, es) && cfg.errorThreshold >= 1
    ensures ErrorsBelow(cfg, Run(cfg, s, es)) && Inv(Run(cfg, s, es))
    ensures cfg.failbackChecks <= 1 ==> OnePrimary(Run(cfg, s, es))
  {
    ReachableInv(cfg, s, es);
    if es == [] {
      OriginalIsFirst(s.nodes);
      assert forall i: nat :: i < |s.nodes| ==> s.nodes[i].priority == s.nodes[i].original;
    } else {
      var p := es[..|es| - 1];
      AtomicPrefix(cfg, s, es);
      AtomicInv(cfg, s, p);
      StepKeepsErrorsBelow(cfg, Run(cfg, s, p), es[|es| - 1]);
      if cfg.failbackChecks <= 1 {
        StepKeepsOnePrimary(cfg, Run(cfg, s, p), es[|es| - 1]);
      }
    }
  }

  /** The same as being reached, by a run with atomic rounds and under the configured bound. */
  ghost predicate ReachedAtomically(cfg: Config, s: State, es: seq<Event>, t: State) {
    Reached(cfg, s, es, t) && Atomic(cfg, s, es) && cfg.errorThreshold >= 1
  }

  /** Every demotion, by HTTP or by WebSocket, happens with the counter exactly at the threshold. */
  lemma DemotedAtThreshold(cfg: Config, s: State, es: seq<Event>, t: State, i: nat)
    requires ReachedAtomically(cfg, s, es, t)
    requires i < |t.nodes| && t.nodes[i].priority == 0
    ensures
      && t.nodes[i].errors < cfg.errorThreshold
      && (Demotes(cfg, t, i) <==> t.nodes[i].errors + 1 == cfg.errorThreshold)
  {
    AtomicInv(cfg, s, es);
  }

  /** Node `i` is primary although its errors have reached the threshold. */
  ghost predicate Overdue(cfg: Config, nodes: seq<Node>, i: nat) {
    AtZero(nodes, i) && nodes[i].errors >= cfg.errorThreshold
  }

  lemma CommitOverdue(cfg: Config, s: State, i: nat)
    requires Inv(s) && Enabled(s, RoundCommitted) && cfg.errorThreshold >= 1
    requires i < |s.nodes| && !Overdue(cfg, s.nodes, i)
    ensures Overdue(cfg, Commit(cfg, s).nodes, i) <==>
      && i == 0 && 0 in s.phase.healthy && s.nodes[0].original == 0
      && s.nodes[0].errors >= cfg.errorThreshold && !Yields(cfg, s.nodes, s.phase.healthy)
  {
    var h := s.phase.healthy;
    CommittedState(cfg, s);
    if Returns(s.nodes, h) {
      ZeroOnReturn(cfg, s, i);
    } else {
      ZeroWithoutReturn(cfg, s, i);
      NotAmongHealthy(s.nodes, h);
    }
  }

  /** What makes a primary overdue, in every reachable state and for every event: the commit of a
      round that brings back the configured primary, without failback, after it has failed that
      often since its check. */
  lemma OverdueIff(cfg: Config, s: State, es: seq<Event>, t: State, e: Event, i: nat)
    requires Reached(cfg, s, es, t) && Enabled(t, e) && cfg.errorThreshold >= 1
    requires i < |t.nodes| && !Overdue(cfg, t.nodes, i)
    ensures Overdue(cfg, Step(cfg, t, e).nodes, i) <==>
      && e.RoundCommitted? && i == 0 && 0 in t.phase.healthy && t.nodes[0].original == 0
      && t.nodes[0].errors >= cfg.errorThreshold && !Yields(cfg, t.nodes, t.phase.healthy)
  {
    ReachableInv(cfg, s, es);
    if e.RoundCommitted? {
      CommitOverdue(cfg, t, i);
    }
  }

  /** With threshold 1 there is never more than one node at priority 0. */
  lemma OnePrimaryAtThresholdOne(cfg: Config, s: State, es: seq<Event>, t: State, i: nat, j: nat)
    requires ReachedAtomically(cfg, s, es, t) && cfg.failbackChecks == 1
    requires
      i < |t.nodes| && j < |t.nodes| && t.nodes[i].priority == 0 && t.nodes[j].priority == 0
    ensures i == j
  {
    AtomicInv(cfg, s, es);
    assert AtZero(t.nodes, i) && AtZero(t.nodes, j);
  }

  /** The failback branch runs exactly when the threshold is 1, the configured primary passed
      its check and another node is primary. */
  lemma FailbackFiresIff(cfg: Config, s: State, es: seq<Event>, t: State)
    requires ReachedAtomically(cfg, s, es, t) && cfg.failbackChecks >= 1
    requires Enabled(t, RoundCommitted)
    ensures
      FailsBack(cfg, t.nodes, t.phase.healthy) <==>
        && cfg.failbackChecks == 1
        && 0 in t.phase.healthy && t.nodes[0].original == 0
        && exists i :: 0 < i < |t.nodes| && t.nodes[i].priority == 0
  {
    AtomicInv(cfg, s, es);
    var h := t.phase.healthy;
    CommittedState(cfg, t);
    FailsBackIff(cfg, t.nodes, h);
    if cfg.failbackChecks >= 2 {
      NeverYields(cfg, t);
    } else if Returns(t.nodes, h) {
      ReturnYields(cfg, t);
    }
  }

  /** Between rounds a displaced configured primary has no consecutive success on record. */
  lemma NoSuccessBetweenRounds(cfg: Config, s: State, es: seq<Event>, t: State)
    requires Reached(cfg, s, es, t)
    requires t.phase.Idle? && |t.nodes| > 0 && t.nodes[0].original == 0 && t.nodes[0].priority > 0
    ensures t.nodes[0].successes == 0
  {
    ReachableInv(cfg, s, es);
  }

  /** A configured primary that passed the startup check is in the routing list whenever it
      is at priority 0. */
  lemma {:induction false} PrimaryStaysRouted(cfg: Config, s: State, es: seq<Event>)
    requires Started(s) && 0 in s.listed && s.nodes[0].original == 0
    ensures var t := Run(cfg, s, es);
      |t.nodes| > 0 && (t.nodes[0].priority == 0 ==> 0 in t.listed)
  {
    NodesStay(cfg, s, es);
    if es != [] {
      var last := |es| - 1;
      PrimaryStaysRouted(cfg, s, es[..last]);
      ReachableInv(cfg, s, es[..last]);
      NodesStay(cfg, s, es[..last]);
      StepStaysRouted(cfg, Run(cfg, s, es[..last]), es[last]);
    }
  }

  lemma StepStaysRouted(cfg: Config, s: State, e: Event)
    requires Inv(s) && |s.nodes| > 0 && s.nodes[0].original == 0
    requires s.nodes[0].priority == 0 ==> 0 in s.listed
    ensures Step(cfg, s, e).nodes[0].priority == 0 ==> 0 in Step(cfg, s, e).listed
  {
    if e.RoundCommitted? && Enabled(s, e) {
      CommittedState(cfg, s);
      var h := s.phase.healthy;
      if s.nodes[0].priority == 0 {
        assert FirstPrimary(s.nodes) == 0;
        assert 0 in h ==> IsBackup(s.nodes, 0);
        assert !Returns(s.nodes, h) by {
          OriginalIsFirst(s.nodes);
          assert forall k :: 0 <= k < |h| ==> h[k] in h;
        }
      }
    }
  }
}
