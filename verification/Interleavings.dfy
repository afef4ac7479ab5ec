/**
 Runs that show what a failure inside a health round, or a lost stand-in, leads to.
 */
module Interleavings {
  import opened FailoverModel
  import opened FailoverInvariants
  import opened FailoverRuns
  import opened AtomicRuns
  import opened History
  import opened Rounds
  import opened Thresholds

  /** The opening of a round, up to `n` failures of node `i` after its verdicts. */
  function LateOpening(arrivals: seq<Arrival>, i: nat, n: nat): seq<Event> {
    [RoundBegan] + Verdicts(arrivals) + Burst(i, n)
  }

  /** A round in which node `i` fails `n` requests between its verdicts and its commit. */
  function LateFailure(arrivals: seq<Arrival>, i: nat, n: nat): seq<Event> {
    LateOpening(arrivals, i, n) + [RoundCommitted]
  }

  lemma OpeningIsLegal(cfg: Config, s: State, arrivals: seq<Arrival>)
    requires s.phase.Idle? && Backups(s.nodes) != {} && Complete(s.nodes, arrivals)
    ensures Legal(cfg, s, [RoundBegan] + Verdicts(arrivals))
  {
    var opening, whole := [RoundBegan] + Verdicts(arrivals), RoundEvents(arrivals);
    RoundIsLegal(cfg, s, arrivals);
    forall k | 0 <= k < |opening| ensures Enabled(Run(cfg, s, opening[..k]), opening[k]) {
      assert opening[..k] == whole[..k] && opening[k] == whole[k];
    }
  }

  lemma LegalSnoc(cfg: Config, s: State, es: seq<Event>, e: Event)
    requires Legal(cfg, s, es) && Enabled(Run(cfg, s, es), e)
    ensures Legal(cfg, s, es + [e]) && Run(cfg, s, es + [e]) == Step(cfg, Run(cfg, s, es), e)
  {
    assert (es + [e])[..|es|] == es;
    forall k | 0 <= k < |es + [e]| ensures Enabled(Run(cfg, s, (es + [e])[..k]), (es + [e])[k]) {
      if k < |es| {
        assert (es + [e])[..k] == es[..k];
      }
    }
  }

  /** What failures do to a backup. */
  function FailedTimes(node: Node, n: nat): Node {
    if n == 0 then node
    else node.(errors := node.errors + n, failures := node.failures + n, successes := 0)
  }

  lemma FailedOnceMore(cfg: Config, s: State, i: nat, n: nat)
    requires i < |s.nodes| && i in s.seen && s.nodes[i].priority > 0
    ensures var t := s.(nodes := s.nodes[i := FailedTimes(s.nodes[i], n)]);
      && Enabled(t, DialFailed(i))
      && Step(cfg, t, DialFailed(i)) == s.(nodes := s.nodes[i := FailedTimes(s.nodes[i], n + 1)])
  {
    var a, b := FailedTimes(s.nodes[i], n), FailedTimes(s.nodes[i], n + 1);
    assert s.nodes[i := a][i := b] == s.nodes[i := b];
  }

  lemma {:induction false} BackupBurst(cfg: Config, s: State, i: nat, n: nat)
    requires i < |s.nodes| && i in s.seen && s.nodes[i].priority > 0
    ensures Legal(cfg, s, Burst(i, n))
    ensures Run(cfg, s, Burst(i, n)) == s.(nodes := s.nodes[i := FailedTimes(s.nodes[i], n)])
  {
    if n == 0 {
      assert s.nodes[i := s.nodes[i]] == s.nodes;
    } else {
      BackupBurst(cfg, s, i, n - 1);
      FailedOnceMore(cfg, s, i, n - 1);
      LegalSnoc(cfg, s, Burst(i, n - 1), DialFailed(i));
      assert Burst(i, n) == Burst(i, n - 1) + [DialFailed(i)];
    }
  }

  /** The machine before the commit of a round with late failures. */
  ghost function BeforeCommit(cfg: Config, s: State, arrivals: seq<Arrival>, i: nat, n: nat): State {
    Run(cfg, s, LateOpening(arrivals, i, n))
  }

  /** `f` is `s` after the verdicts `arrivals` and `n` failures of node `i`, ready to commit. */
  ghost predicate FailedLate(s: State, arrivals: seq<Arrival>, i: nat, n: nat, f: State) {
    && Inv(f) && Enabled(f, RoundCommitted)
    && |f.nodes| == |s.nodes| && f.phase.healthy == Healthy(arrivals)
    && (forall j :: 0 <= j < |s.nodes| ==>
          f.nodes[j].priority == s.nodes[j].priority && f.nodes[j].original == s.nodes[j].original)
    && i < |f.nodes| && f.nodes[i].successes == 0 && f.nodes[i].errors >= n
  }

  lemma FailsLate(cfg: Config, s: State, arrivals: seq<Arrival>, i: nat, n: nat, m: State)
    requires Inv(m) && Gathered(s, arrivals, m) && Complete(s.nodes, arrivals)
    requires i < |s.nodes| && i in s.seen && s.nodes[i].priority > 0 && n > 0
    ensures Legal(cfg, m, Burst(i, n)) && FailedLate(s, arrivals, i, n, Run(cfg, m, Burst(i, n)))
  {
    GatheredInRange(s, m, arrivals);
    BackupBurst(cfg, m, i, n);
    RunKeeps(cfg, m, Burst(i, n));
  }

  lemma LateFailureEffect(cfg: Config, s: State, arrivals: seq<Arrival>, i: nat, n: nat)
    requires Inv(s) && s.phase.Idle? && Backups(s.nodes) != {} && Complete(s.nodes, arrivals)
    requires i < |s.nodes| && i in s.seen && s.nodes[i].priority > 0 && n > 0
    ensures Legal(cfg, s, LateFailure(arrivals, i, n))
    ensures FailedLate(s, arrivals, i, n, BeforeCommit(cfg, s, arrivals, i, n))
    ensures Run(cfg, s, LateFailure(arrivals, i, n))
      == Step(cfg, BeforeCommit(cfg, s, arrivals, i, n), RoundCommitted)
  {
    var opening := [RoundBegan] + Verdicts(arrivals);
    OpeningIsLegal(cfg, s, arrivals);
    AfterVerdicts(cfg, s, arrivals);
    RunKeeps(cfg, s, opening);
    FailsLate(cfg, s, arrivals, i, n, Run(cfg, s, opening));
    LegalConcat(cfg, s, opening, Burst(i, n));
    RunConcat(cfg, s, opening, Burst(i, n));
    LegalSnoc(cfg, s, LateOpening(arrivals, i, n), RoundCommitted);
  }

  // ---------------------------------------------------------------- a split by interleaving

  /** Node 1 is primary; the configured primary passes its check and fails before the commit. */
  function InterleavedSplit(cfg: Config, n: nat): seq<Event>
    requires n >= 2
  {
    FailOver(cfg, n) + LateFailure(BringBackZero(n), 0, 1)
  }

  ghost predicate Splits(cfg: Config, s: State, es: seq<Event>) {
    Legal(cfg, s, es) && TwoAtZero(Run(cfg, s, es))
  }

  lemma ReturnWithoutYield(cfg: Config, f: State)
    requires Inv(f) && Enabled(f, RoundCommitted) && cfg.failbackChecks >= 1
    requires |f.nodes| >= 2 && f.nodes[0].original == 0 && Members(f.phase.healthy) == {0}
    requires f.nodes[0].successes == 0
    requires forall j :: 0 <= j < |f.nodes| ==> (f.nodes[j].priority > 0 <==> j != 1)
    ensures var t := Commit(cfg, f);
      |t.nodes| == |f.nodes| && AtZero(t.nodes, 0) && AtZero(t.nodes, 1)
  {
    var h := f.phase.healthy;
    CommittedState(cfg, f);
    assert 0 in Members(h) && 1 !in Members(h);
    assert FirstPrimary(f.nodes) == 1;
    assert forall k :: 0 <= k < |h| ==> h[k] in Members(h);
  }

  lemma LateReturn(cfg: Config, p: State, arrivals: seq<Arrival>)
    requires Inv(p) && p.phase.Idle? && Backups(p.nodes) != {} && Complete(p.nodes, arrivals)
    requires Members(Healthy(arrivals)) == {0} && cfg.failbackChecks >= 1
    requires |p.nodes| >= 2 && p.nodes[0].original == 0 && 0 in p.seen
    requires forall j :: 0 <= j < |p.nodes| ==> (p.nodes[j].priority > 0 <==> j != 1)
    ensures Splits(cfg, p, LateFailure(arrivals, 0, 1))
  {
    LateFailureEffect(cfg, p, arrivals, 0, 1);
    ReturnWithoutYield(cfg, BeforeCommit(cfg, p, arrivals, 0, 1));
  }

  lemma InterleavedSplitSplits(cfg: Config, s: State)
    requires Started(s) && cfg.errorThreshold >= 1 && cfg.failbackChecks >= 1 && CanFailOver(s)
    ensures Splits(cfg, s, InterleavedSplit(cfg, |s.nodes|))
  {
    var n := |s.nodes|;
    FailsOver(cfg, s);
    LateReturn(cfg, Run(cfg, s, FailOver(cfg, n)), BringBackZero(n));
    LegalConcat(cfg, s, FailOver(cfg, n), LateFailure(BringBackZero(n), 0, 1));
    RunConcat(cfg, s, FailOver(cfg, n), LateFailure(BringBackZero(n), 0, 1));
  }

  /** With requests inside rounds, two nodes can be primary at once for every threshold, exactly
      when the configured primary started and has a stand-in. */
  lemma SplitsIff(cfg: Config, s: State)
    requires Started(s) && cfg.errorThreshold >= 1 && cfg.failbackChecks >= 1
    ensures (exists es :: Splits(cfg, s, es)) <==> CanFailOver(s)
  {
    if CanFailOver(s) {
      InterleavedSplitSplits(cfg, s);
    } else {
      forall es ensures !Splits(cfg, s, es) {
        CannotSplit(cfg, s, es, Run(cfg, s, es));
      }
    }
  }

  // ---------------------------------------------------------------- an overdue primary

  /** The configured primary passes its check and fails up to the threshold before the commit. */
  function OverdueRun(cfg: Config, n: nat): seq<Event>
    requires n >= 2
  {
    FailOver(cfg, n) + LateFailure(BringBackZero(n), 0, cfg.errorThreshold)
  }

  lemma ReturnsOverdue(cfg: Config, p: State, arrivals: seq<Arrival>)
    requires Inv(p) && p.phase.Idle? && Backups(p.nodes) != {} && Complete(p.nodes, arrivals)
    requires Members(Healthy(arrivals)) == {0} && cfg.failbackChecks >= 1 && cfg.errorThreshold >= 1
    requires |p.nodes| >= 2 && p.nodes[0].original == 0 && p.nodes[0].priority > 0 && 0 in p.seen
    ensures Legal(cfg, p, LateFailure(arrivals, 0, cfg.errorThreshold))
    ensures Overdue(cfg, Run(cfg, p, LateFailure(arrivals, 0, cfg.errorThreshold)).nodes, 0)
  {
    LateFailureEffect(cfg, p, arrivals, 0, cfg.errorThreshold);
    var f := BeforeCommit(cfg, p, arrivals, 0, cfg.errorThreshold);
    assert 0 in Members(f.phase.healthy);
    OriginalIsFirst(f.nodes);
    assert !Yields(cfg, f.nodes, f.phase.healthy);
    CommitOverdue(cfg, f, 0);
  }

  /** For every threshold a primary can come to have as many errors as the threshold or more. */
  lemma OverdueRunIsOverdue(cfg: Config, s: State)
    requires Started(s) && cfg.errorThreshold >= 1 && cfg.failbackChecks >= 1 && CanFailOver(s)
    ensures var es := OverdueRun(cfg, |s.nodes|);
      Legal(cfg, s, es) && Overdue(cfg, Run(cfg, s, es).nodes, 0)
  {
    var n := |s.nodes|;
    FailsOver(cfg, s);
    ReturnsOverdue(cfg, Run(cfg, s, FailOver(cfg, n)), BringBackZero(n));
    LegalConcat(cfg, s, FailOver(cfg, n), LateFailure(BringBackZero(n), 0, cfg.errorThreshold));
    RunConcat(cfg, s, FailOver(cfg, n), LateFailure(BringBackZero(n), 0, cfg.errorThreshold));
  }

  // ---------------------------------------------------------------- a wiped failure

  /** The configured primary is demoted; node 1 passes its check, fails, and is promoted. */
  function WipingRun(cfg: Config, n: nat): seq<Event> {
    Burst(0, cfg.errorThreshold) + LateFailure(PromoteOne(n), 1, 1)
  }

  lemma PromotionClears(cfg: Config, f: State)
    requires Inv(f) && Enabled(f, RoundCommitted) && |f.nodes| >= 2
    requires Members(f.phase.healthy) == {1} && f.nodes[1].original > 0 && f.nodes[1].errors > 0
    requires forall j :: 0 <= j < |f.nodes| ==> f.nodes[j].priority > 0
    ensures Wipes(cfg, f, RoundCommitted, 1)
  {
    var h := f.phase.healthy;
    assert 1 in Members(h);
    assert forall k :: 0 <= k < |h| ==> h[k] in Members(h);
    assert FirstPrimary(f.nodes) == |f.nodes|;
  }

  lemma LastWipes(cfg: Config, s: State, es: seq<Event>, x: nat)
    requires Wipes(cfg, Run(cfg, s, es), RoundCommitted, x)
    ensures Wiped(cfg, s, es + [RoundCommitted], x)
  {
    assert (es + [RoundCommitted])[..|es|] == es;
  }

  /** A run after which the error counter is lower than the failure streak, for every
      configuration. */
  lemma WipingRunWipes(cfg: Config, s: State)
    requires Started(s) && cfg.errorThreshold >= 1 && CanFailOver(s) && 1 in s.listed
    ensures var es := WipingRun(cfg, |s.nodes|);
      && Legal(cfg, s, es) && Wiped(cfg, s, es, 1)
      && |Run(cfg, s, es).nodes| > 1 && Run(cfg, s, es).nodes[1].errors < ErrorStreak(es, 1)
  {
    var n, burst := |s.nodes|, Burst(0, cfg.errorThreshold);
    var d := Run(cfg, s, burst);
    DemotedByBurst(cfg, s);
    LateFailureEffect(cfg, d, PromoteOne(n), 1, 1);
    PromotionClears(cfg, BeforeCommit(cfg, d, PromoteOne(n), 1, 1));
    LegalConcat(cfg, s, burst, LateFailure(PromoteOne(n), 1, 1));
    var before := LateOpening(PromoteOne(n), 1, 1);
    RunConcat(cfg, s, burst, before);
    LastWipes(cfg, s, burst + before, 1);
    assert burst + before + [RoundCommitted] == WipingRun(cfg, n);
    ErrorsAreHistory(cfg, s, WipingRun(cfg, n), 1);
  }

  // ---------------------------------------------------------------- a blocked promotion

  /** The configured primary fails over to node 1, comes back, and is demoted again. */
  function BlockingRun(cfg: Config, n: nat): seq<Event>
    requires n >= 2
  {
    SplitRun(cfg, n) + Burst(0, cfg.errorThreshold)
  }

  /** The configured primary comes back while node 1 keeps priority 0, unlisted. */
  lemma ComesBack(cfg: Config, p: State, arrivals: seq<Arrival>)
    requires Inv(p) && p.phase.Idle? && Backups(p.nodes) != {} && Complete(p.nodes, arrivals)
    requires Members(Healthy(arrivals)) == {0} && cfg.failbackChecks >= 2
    requires |p.nodes| >= 2 && p.nodes[0].original == 0
    requires forall j :: 0 <= j < |p.nodes| ==> (p.nodes[j].priority > 0 <==> j != 1)
    ensures var t := Run(cfg, p, RoundEvents(arrivals));
      && Inv(t) && t.phase.Idle? && Lost(t, 1) && 0 in t.seen
      && t.nodes[0].priority == 0 && t.nodes[0].errors == 0 && t.nodes[0].original == 0
  {
    var h := Healthy(arrivals);
    RoundEffect(cfg, p, arrivals);
    RunKeeps(cfg, p, RoundEvents(arrivals));
    HealthyMembers(arrivals);
    OriginalIsFirst(p.nodes);
    assert 0 in Members(h) && 1 !in Members(h);
    assert FirstPrimary(p.nodes) == 1;
  }

  lemma DemotedAgain(cfg: Config, t: State)
    requires Inv(t) && t.phase.Idle? && Lost(t, 1) && 0 in t.seen
    requires cfg.errorThreshold >= 1 && cfg.failbackChecks >= 2
    requires t.nodes[0].priority == 0 && t.nodes[0].errors == 0 && t.nodes[0].original == 0
    ensures Blocked(Run(cfg, t, Burst(0, cfg.errorThreshold)), 1) && Legal(cfg, t, Burst(0, cfg.errorThreshold))
  {
    BurstEffect(cfg, t, cfg.errorThreshold);
    StaysLost(cfg, t, Burst(0, cfg.errorThreshold), 1);
    NodesStay(cfg, t, Burst(0, cfg.errorThreshold));
  }

  /** For every threshold of two or more a lost stand-in comes to block every promotion. */
  lemma BlockingRunBlocks(cfg: Config, s: State)
    requires Started(s) && cfg.errorThreshold >= 1 && cfg.failbackChecks >= 2 && CanFailOver(s)
    ensures var es := BlockingRun(cfg, |s.nodes|);
      Legal(cfg, s, es) && Blocked(Run(cfg, s, es), 1) && !ListsPrimary(Run(cfg, s, es))
  {
    var n := |s.nodes|;
    var split, burst := SplitRun(cfg, n), Burst(0, cfg.errorThreshold);
    FailsOver(cfg, s);
    OneMoreRound(cfg, s, FailOver(cfg, n), n, BringBackZero(n));
    RunConcat(cfg, s, FailOver(cfg, n), RoundEvents(BringBackZero(n)));
    ComesBack(cfg, Run(cfg, s, FailOver(cfg, n)), BringBackZero(n));
    DemotedAgain(cfg, Run(cfg, s, split));
    LegalConcat(cfg, s, split, burst);
    RunConcat(cfg, s, split, burst);
    ReachableInv(cfg, s, split + burst);
    BlockedListsNone(Run(cfg, s, split + burst), 1);
  }
}
