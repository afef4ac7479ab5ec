/**
 What the failback threshold really decides: whether two nodes can be primary at once.
 */
module Thresholds {
  import opened FailoverModel
  import opened FailoverInvariants
  import opened FailoverRuns
  import opened AtomicRuns
  import opened Rounds

  lemma LegalConcat(cfg: Config, s: State, a: seq<Event>, b: seq<Event>)
    requires Legal(cfg, s, a) && Legal(cfg, Run(cfg, s, a), b)
    ensures Legal(cfg, s, a + b)
  {
    forall k | 0 <= k < |a + b| ensures Enabled(Run(cfg, s, (a + b)[..k]), (a + b)[k]) {
      if k < |a| {
        assert (a + b)[..k] == a[..k];
      } else {
        assert (a + b)[..k] == a + b[..k - |a|];
        RunConcat(cfg, s, a, b[..k - |a|]);
      }
    }
  }

  lemma AtomicConcat(cfg: Config, s: State, a: seq<Event>, b: seq<Event>)
    requires Atomic(cfg, s, a) && forall e :: e in b ==> !IsRequest(e)
    ensures Atomic(cfg, s, a + b)
  {
    forall k | 0 <= k < |a + b| && IsRequest((a + b)[k]) ensures Run(cfg, s, (a + b)[..k]).phase.Idle? {
      assert (a + b)[..k] == a[..k];
    }
  }

  lemma RoundIsLegal(cfg: Config, s: State, arrivals: seq<Arrival>)
    requires s.phase.Idle? && Backups(s.nodes) != {} && Complete(s.nodes, arrivals)
    ensures Legal(cfg, s, RoundEvents(arrivals))
    ensures forall e :: e in RoundEvents(arrivals) ==> !IsRequest(e)
  {
    var es := RoundEvents(arrivals);
    forall k | 0 <= k < |es| ensures Enabled(Run(cfg, s, es[..k]), es[k]) {
      if 0 < k {
        var p := arrivals[..k - 1];
        assert es[..k] == [RoundBegan] + Verdicts(p);
        assert Checked(p) <= Checked(arrivals) by {
          assert forall j :: 0 <= j < |p| ==> p[j] == arrivals[j] && arrivals[j].node in Checked(arrivals);
        }
        AfterVerdicts(cfg, s, p);
        if k < |es| - 1 {
          var next := arrivals[k - 1];
          assert es[k] == Verdict(next.node, next.ok) && next.node in Checked(arrivals);
          assert next.node !in Checked(p);
        } else {
          assert p == arrivals;
          GatheredInRange(s, Run(cfg, s, es[..k]), arrivals);
        }
      }
    }
  }

  /** Failed WebSocket dials of node `i`. */
  function Burst(i: nat, n: nat): (r: seq<Event>)
    ensures |r| == n
  {
    seq(n, _ => DialFailed(i))
  }

  /** A burst of failures on the configured primary demotes it at the threshold, no earlier. */
  lemma {:induction false} BurstEffect(cfg: Config, s: State, n: nat)
    requires s.phase.Idle? && |s.nodes| > 0 && 0 in s.seen && n <= cfg.errorThreshold
    requires s.nodes[0].priority == 0 && s.nodes[0].errors == 0
    ensures var t := Run(cfg, s, Burst(0, n));
      && |t.nodes| == |s.nodes| && t.phase == Idle && t.seen == s.seen
      && t.nodes[0].priority == (if n == cfg.errorThreshold && n > 0 then |s.nodes| else 0)
      && t.nodes[0].errors == n
      && t.nodes[1..] == s.nodes[1..]
    ensures Legal(cfg, s, Burst(0, n)) && Atomic(cfg, s, Burst(0, n))
  {
    if n > 0 {
      var p := Burst(0, n - 1);
      assert Burst(0, n)[..n - 1] == p;
      BurstEffect(cfg, s, n - 1);
      assert Enabled(Run(cfg, s, p), DialFailed(0));
      forall k | 0 <= k < n
        ensures Enabled(Run(cfg, s, Burst(0, n)[..k]), Burst(0, n)[k]) && Run(cfg, s, Burst(0, n)[..k]).phase.Idle?
      {
        if k < n - 1 {
          assert Burst(0, n)[..k] == p[..k];
          assert Enabled(Run(cfg, s, p[..k]), p[k]) && IsRequest(p[k]);
        }
      }
    }
  }

  /** Only node 1 passes its check. */
  function PromoteOne(n: nat): seq<Arrival> {
    seq(n, (i: nat) => Arrival(i, i == 1))
  }

  /** Only the configured primary passes its check; node 1 is primary and is not checked. */
  function BringBackZero(n: nat): seq<Arrival>
    requires n >= 2
  {
    seq(n - 1, (i: nat) => if i == 0 then Arrival(0, true) else Arrival(i + 1, false))
  }

  lemma PromoteOneComplete(nodes: seq<Node>)
    requires |nodes| >= 2 && forall i :: 0 <= i < |nodes| ==> nodes[i].priority > 0
    ensures Complete(nodes, PromoteOne(|nodes|)) && Backups(nodes) != {}
    ensures Members(Healthy(PromoteOne(|nodes|))) == {1}
  {
    var a := PromoteOne(|nodes|);
    forall i | i in Backups(nodes) ensures i in Checked(a) {
      assert a[i].node == i;
    }
    assert 1 in Backups(nodes);
    HealthyMembers(a);
    assert a[1] == Arrival(1, true);
  }

  lemma BringBackZeroComplete(nodes: seq<Node>)
    requires |nodes| >= 2 && forall i :: 0 <= i < |nodes| ==> (nodes[i].priority > 0 <==> i != 1)
    ensures Complete(nodes, BringBackZero(|nodes|)) && Backups(nodes) != {}
    ensures Members(Healthy(BringBackZero(|nodes|))) == {0}
  {
    var a := BringBackZero(|nodes|);
    forall i | i in Backups(nodes) ensures i in Checked(a) {
      assert i > 1 ==> a[i - 1].node == i;
      assert a[0].node == 0;
    }
    assert 0 in Backups(nodes);
    HealthyMembers(a);
    assert a[0] == Arrival(0, true);
  }

  ghost predicate TwoAtZero(t: State) {
    exists i, j :: 0 <= i < j < |t.nodes| && AtZero(t.nodes, i) && AtZero(t.nodes, j)
  }

  ghost predicate TwoPrimaries(cfg: Config, s: State, es: seq<Event>) {
    Legal(cfg, s, es) && Atomic(cfg, s, es) && TwoAtZero(Run(cfg, s, es))
  }

  /** The machine between rounds, ready for one more. */
  ghost predicate Between(cfg: Config, s: State, es: seq<Event>, n: nat) {
    && Legal(cfg, s, es) && Atomic(cfg, s, es)
    && Inv(Run(cfg, s, es)) && Run(cfg, s, es).phase.Idle? && |Run(cfg, s, es).nodes| == n
  }

  lemma OneMoreRound(cfg: Config, s: State, es: seq<Event>, n: nat, arrivals: seq<Arrival>)
    requires Between(cfg, s, es, n) && Backups(Run(cfg, s, es).nodes) != {}
    requires Complete(Run(cfg, s, es).nodes, arrivals)
    ensures Between(cfg, s, es + RoundEvents(arrivals), n)
    ensures forall i: nat :: i < n ==>
      Run(cfg, s, es + RoundEvents(arrivals)).nodes[i].priority
        == RoundPriority(cfg, Run(cfg, s, es).nodes, Members(Healthy(arrivals)), i)
  {
    var t := Run(cfg, s, es);
    RoundIsLegal(cfg, t, arrivals);
    RoundEffect(cfg, t, arrivals);
    RunKeeps(cfg, t, RoundEvents(arrivals));
    RunConcat(cfg, s, es, RoundEvents(arrivals));
    LegalConcat(cfg, s, es, RoundEvents(arrivals));
    AtomicConcat(cfg, s, es, RoundEvents(arrivals));
  }

  /** A startup from which the configured primary can be displaced by another node. */
  predicate CanFailOver(s: State) {
    |s.nodes| >= 2 && s.nodes[0].original == 0 && 0 in s.listed
  }

  /** The configured primary is demoted and node 1 is promoted. */
  function FailOver(cfg: Config, n: nat): seq<Event> {
    Burst(0, cfg.errorThreshold) + RoundEvents(PromoteOne(n))
  }

  lemma DemotedByBurst(cfg: Config, s: State)
    requires Started(s) && cfg.errorThreshold >= 1 && CanFailOver(s)
    ensures var n := |s.nodes|; var burst := Burst(0, cfg.errorThreshold);
      && Between(cfg, s, burst, n)
      && Complete(Run(cfg, s, burst).nodes, PromoteOne(n)) && Backups(Run(cfg, s, burst).nodes) != {}
      && Members(Healthy(PromoteOne(n))) == {1}
    ensures var d := Run(cfg, s, Burst(0, cfg.errorThreshold));
      && d.seen == s.seen
      && (forall i :: 0 <= i < |d.nodes| ==> d.nodes[i].priority > 0)
      && d.nodes[1].original > 0 && d.nodes[1].errors == 0
  {
    var burst := Burst(0, cfg.errorThreshold);
    BurstEffect(cfg, s, cfg.errorThreshold);
    ReachableInv(cfg, s, burst);
    DemotedStart(cfg, s, Run(cfg, s, burst));
    PromoteOneComplete(Run(cfg, s, burst).nodes);
  }

  lemma FailsOver(cfg: Config, s: State)
    requires Started(s) && cfg.errorThreshold >= 1 && CanFailOver(s)
    ensures var n := |s.nodes|; var es := FailOver(cfg, n);
      && Between(cfg, s, es, n)
      && Complete(Run(cfg, s, es).nodes, BringBackZero(n)) && Backups(Run(cfg, s, es).nodes) != {}
      && Members(Healthy(BringBackZero(n))) == {0}
    ensures var p := Run(cfg, s, FailOver(cfg, |s.nodes|));
      && p.nodes[0].original == 0 && 0 in p.seen
      && (forall i :: 0 <= i < |p.nodes| ==> (p.nodes[i].priority > 0 <==> i != 1))
  {
    var n := |s.nodes|;
    var burst := Burst(0, cfg.errorThreshold);
    DemotedByBurst(cfg, s);
    OneMoreRound(cfg, s, burst, n, PromoteOne(n));
    var p := Run(cfg, s, FailOver(cfg, n));
    PromotedOne(cfg, Run(cfg, s, burst), p);
    BringBackZeroComplete(p.nodes);
    NodesStay(cfg, s, FailOver(cfg, n));
  }

  /** The run: the configured primary is demoted, node 1 is promoted, the configured primary
      comes back. */
  function SplitRun(cfg: Config, n: nat): seq<Event>
    requires n >= 2
  {
    FailOver(cfg, n) + RoundEvents(BringBackZero(n))
  }

  lemma SplitRunSplits(cfg: Config, s: State)
    requires Started(s) && cfg.errorThreshold >= 1 && cfg.failbackChecks >= 2 && CanFailOver(s)
    ensures TwoPrimaries(cfg, s, SplitRun(cfg, |s.nodes|))
  {
    var n := |s.nodes|;
    FailsOver(cfg, s);
    OneMoreRound(cfg, s, FailOver(cfg, n), n, BringBackZero(n));
    var t := Run(cfg, s, SplitRun(cfg, n));
    assert AtZero(t.nodes, 0) && AtZero(t.nodes, 1);
  }

  lemma DemotedStart(cfg: Config, s: State, d: State)
    requires Started(s) && |d.nodes| == |s.nodes| >= 2 && s.nodes[0].original == 0
    requires d.nodes[0].priority == |s.nodes| && d.nodes[1..] == s.nodes[1..]
    ensures forall i :: 0 <= i < |d.nodes| ==> d.nodes[i].priority > 0
    ensures forall i :: 1 <= i < |d.nodes| ==> d.nodes[i] == s.nodes[i] && d.nodes[i].original > 0
  {
    forall i | 1 <= i < |d.nodes| ensures d.nodes[i] == s.nodes[i] && d.nodes[i].original > 0 {
      assert d.nodes[i] == d.nodes[1..][i - 1] && s.nodes[0].original < s.nodes[i].original;
    }
  }

  lemma PromotedOne(cfg: Config, d: State, p: State)
    requires |p.nodes| == |d.nodes| >= 2
    requires forall i :: 0 <= i < |d.nodes| ==> d.nodes[i].priority > 0
    requires forall i: nat :: i < |d.nodes| ==>
      p.nodes[i].priority == RoundPriority(cfg, d.nodes, {1}, i)
    ensures forall i :: 0 <= i < |p.nodes| ==> (p.nodes[i].priority > 0 <==> i != 1)
  {
    assert FirstPrimary(d.nodes) == |d.nodes|;
  }

  /** Two nodes are never primary at once after a startup with one node, with a gap at
      position 0 or with the configured primary down. */
  lemma CannotSplit(cfg: Config, s: State, es: seq<Event>, t: State)
    requires Reached(cfg, s, es, t) && !CanFailOver(s)
    ensures !TwoAtZero(t)
  {
    NodesStay(cfg, s, es);
    OriginalIsFirst(s.nodes);
    forall i, j | 0 <= i < j < |t.nodes| && AtZero(t.nodes, i) ensures !AtZero(t.nodes, j) {
      if s.nodes[0].original == 0 {
        PrimaryDownAtStartup(cfg, s, es);
      } else if AtZero(t.nodes, j) {
        OnePrimaryRouted(cfg, s, es, t, i, j);
      }
    }
  }

  /** Even with atomic rounds, two nodes can be primary at once exactly when the threshold is
      two or more and the configured primary started and has a stand-in. */
  lemma TwoPrimariesIff(cfg: Config, s: State)
    requires Started(s) && cfg.errorThreshold >= 1 && cfg.failbackChecks >= 1
    ensures (exists es :: TwoPrimaries(cfg, s, es)) <==> cfg.failbackChecks >= 2 && CanFailOver(s)
  {
    if !CanFailOver(s) {
      forall es ensures !TwoPrimaries(cfg, s, es) {
        CannotSplit(cfg, s, es, Run(cfg, s, es));
      }
    } else if cfg.failbackChecks >= 2 {
      SplitRunSplits(cfg, s);
    } else {
      forall es | Atomic(cfg, s, es) ensures !TwoAtZero(Run(cfg, s, es)) {
        AtomicInv(cfg, s, es);
      }
    }
  }

  lemma CommitWithoutReturn(cfg: Config, s: State)
    requires Inv(s) && Enabled(s, RoundCommitted) && !Returns(s.nodes, s.phase.healthy)
    ensures TwoAtZero(Commit(cfg, s)) <==> TwoAtZero(s)
  {
    var t := Commit(cfg, s);
    forall i: nat ensures if FirstPrimary(s.nodes) < |s.nodes| then AtZero(t.nodes, i) <==> AtZero(s.nodes, i)
      else AtZero(t.nodes, i) <==> i < |s.nodes| && Highest(s.nodes, s.phase.healthy, i)
    {
      ZeroWithoutReturn(cfg, s, i);
    }
    if FirstPrimary(s.nodes) == |s.nodes| {
      forall i: nat, j: nat | AtZero(t.nodes, i) && AtZero(t.nodes, j) ensures i == j {
        HighestIsUnique(s.nodes, s.phase.healthy, i, j);
      }
    } else if TwoAtZero(s) {
      var i: nat, j: nat :| i < j < |s.nodes| && AtZero(s.nodes, i) && AtZero(s.nodes, j);
      assert AtZero(t.nodes, i) && AtZero(t.nodes, j);
    }
  }

  lemma CommitWithReturn(cfg: Config, s: State)
    requires Inv(s) && Enabled(s, RoundCommitted) && Returns(s.nodes, s.phase.healthy)
    ensures 0 in s.phase.healthy && s.nodes[0].original == 0
    ensures TwoAtZero(Commit(cfg, s)) <==>
      FirstPrimary(s.nodes) < |s.nodes| && s.nodes[0].successes < cfg.failbackChecks
  {
    var t, cp := Commit(cfg, s), FirstPrimary(s.nodes);
    ReturnYieldsIff(cfg, s);
    ZeroOnReturn(cfg, s, 0);
    ZeroOnReturn(cfg, s, cp);
    forall i: nat | AtZero(t.nodes, i) ensures i == 0 || i == cp {
      ZeroOnReturn(cfg, s, i);
    }
  }

  lemma ReturnYieldsIff(cfg: Config, s: State)
    requires Inv(s) && Enabled(s, RoundCommitted) && Returns(s.nodes, s.phase.healthy)
    ensures |s.nodes| > 0
    ensures Yields(cfg, s.nodes, s.phase.healthy) <==>
      FirstPrimary(s.nodes) < |s.nodes| && s.nodes[0].successes >= cfg.failbackChecks
  {
    var h := s.phase.healthy;
    ReturnIsHighest(s.nodes, h);
    OriginalIsFirst(s.nodes);
    var k :| 0 <= k < |h| && h[k] == 0;
    assert forall j :: 0 <= j < |h| && s.nodes[h[j]].original == 0 ==> h[j] == 0;
  }

  /** When a commit leaves two nodes at priority 0, for every threshold and every interleaving: when
      the configured primary returns while another node is primary and has too few successes, or
      when it does not return and there were two before. */
  lemma CommitSplitsIff(cfg: Config, s: State, es: seq<Event>, t: State)
    requires Reached(cfg, s, es, t) && Enabled(t, RoundCommitted)
    ensures TwoAtZero(Step(cfg, t, RoundCommitted)) <==>
      if 0 in t.phase.healthy && t.nodes[0].original == 0
      then FirstPrimary(t.nodes) < |t.nodes| && t.nodes[0].successes < cfg.failbackChecks
      else TwoAtZero(t)
  {
    ReachableInv(cfg, s, es);
    var h := t.phase.healthy;
    if Returns(t.nodes, h) {
      CommitWithReturn(cfg, t);
    } else {
      CommitWithoutReturn(cfg, t);
      assert forall k :: 0 <= k < |h| && h[k] == 0 ==> t.nodes[h[k]].original != 0;
    }
  }
}
