/**
 Consequences of the exact effect of a round: verdict order does not matter, and two
 all-healthy rounds bring the configured routing back exactly when nothing was lost.
 */
module Stabilisation {
  import opened FailoverModel
  import opened FailoverInvariants
  import opened FailoverRuns
  import opened AtomicRuns
  import opened Rounds

  lemma {:induction false} DistinctMultiset(h: seq<nat>)
    requires Distinct(h)
    ensures multiset(h) == multiset(Members(h))
  {
    if h == [] {
      assert Members(h) == {};
    } else {
      var p, last := h[..|h| - 1], h[|h| - 1];
      assert h == p + [last];
      DistinctMultiset(p);
      assert last !in Members(p);
      assert Members(h) == Members(p) + {last};
    }
  }

  lemma SamePermutation(a: seq<nat>, b: seq<nat>)
    requires Distinct(a) && Distinct(b) && Members(a) == Members(b)
    ensures multiset(a) == multiset(b)
  {
    DistinctMultiset(a);
    DistinctMultiset(b);
  }

  /** The order in which the verdicts of a round arrive changes neither the nodes nor the
      members of the routing list, nor its head when the current primary keeps its place. */
  lemma RoundConfluence(cfg: Config, s0: State, es: seq<Event>, a: seq<Arrival>, b: seq<Arrival>)
    requires Started(s0) && Run(cfg, s0, es).phase.Idle?
    requires Complete(Run(cfg, s0, es).nodes, a) && Complete(Run(cfg, s0, es).nodes, b)
    requires multiset(a) == multiset(b)
    ensures var s := Run(cfg, s0, es);
      var t, u := Run(cfg, s, RoundEvents(a)), Run(cfg, s, RoundEvents(b));
      && t.nodes == u.nodes && t.phase == u.phase && t.seen == u.seen
      && multiset(t.listed) == multiset(u.listed)
      && (Backups(s.nodes) != {} && Retained(s.nodes, s.listed, Members(Healthy(a))) ==>
            t.listed != [] && u.listed != [] && t.listed[0] == u.listed[0] == FirstPrimary(s.nodes))
  {
    ReachableInv(cfg, s0, es);
    var s := Run(cfg, s0, es);
    if Backups(s.nodes) == {} {
      NoBackupsNoRound(cfg, s, a);
      NoBackupsNoRound(cfg, s, b);
    } else {
      RoundsAgree(cfg, s, a, b);
    }
  }

  lemma RoundsAgree(cfg: Config, s: State, a: seq<Arrival>, b: seq<Arrival>)
    requires Inv(s) && s.phase.Idle? && Backups(s.nodes) != {}
    requires Complete(s.nodes, a) && Complete(s.nodes, b) && multiset(a) == multiset(b)
    ensures var t, u := Run(cfg, s, RoundEvents(a)), Run(cfg, s, RoundEvents(b));
      && t.nodes == u.nodes && t.phase == u.phase && t.seen == u.seen
      && multiset(t.listed) == multiset(u.listed)
      && (Retained(s.nodes, s.listed, Members(Healthy(a))) ==>
            t.listed != [] && u.listed != [] && t.listed[0] == u.listed[0] == FirstPrimary(s.nodes))
  {
    SameVerdicts(a, b);
    RoundEffect(cfg, s, a);
    RoundEffect(cfg, s, b);
    var t, u := Run(cfg, s, RoundEvents(a)), Run(cfg, s, RoundEvents(b));
    forall i: nat | i < |s.nodes| ensures t.nodes[i] == u.nodes[i] {
      SameJudgement(s.nodes[i], i, a, b);
    }
    var kept := if Retained(s.nodes, s.listed, Members(Healthy(a))) then [FirstPrimary(s.nodes)] else [];
    SameMembers(kept, Healthy(a), Healthy(b));
  }

  lemma SameMembers(kept: seq<nat>, a: seq<nat>, b: seq<nat>)
    requires Members(a) == Members(b)
    ensures Members(kept + a) == Members(kept + b)
  {
    forall i ensures i in kept + a <==> i in kept + b {
      assert i in a <==> i in Members(a);
      assert i in b <==> i in Members(b);
    }
  }

  lemma SameVerdicts(a: seq<Arrival>, b: seq<Arrival>)
    requires Once(a) && Once(b) && multiset(a) == multiset(b)
    ensures forall x :: x in a <==> x in b
    ensures Members(Healthy(a)) == Members(Healthy(b))
    ensures multiset(Healthy(a)) == multiset(Healthy(b))
  {
    forall x ensures x in a <==> x in b {
      assert x in multiset(a) <==> x in multiset(b);
    }
    HealthyMembers(a);
    HealthyMembers(b);
    SamePermutation(Healthy(a), Healthy(b));
  }

  lemma SameJudgement(node: Node, i: nat, a: seq<Arrival>, b: seq<Arrival>)
    requires forall x :: x in a <==> x in b
    ensures Judged(node, i, a) == Judged(node, i, b)
  {
  }

  // ---------------------------------------------------------------- self-stabilisation

  ghost predicate AllHealthy(arrivals: seq<Arrival>) {
    forall a :: a in arrivals ==> a.ok
  }

  /** A request event that is not a failure. */
  predicate Quiet(e: Event) {
    e.Attempted? || e.Answered? || e.Upgraded?
  }

  /** Every node has its configured priority, and the routing list is the configured primary
      followed by a permutation of all the others. */
  ghost predicate AsConfigured(s: State) {
    && (forall i: nat :: i < |s.nodes| ==> s.nodes[i].priority == s.nodes[i].original)
    && s.listed != [] && s.listed[0] == 0
    && Distinct(s.listed)
    && (forall i: nat :: i < |s.nodes| <==> i in s.listed)
  }

  /** Node 0 is routed, or displaced and hence checked by the next round. */
  ghost predicate PrimaryReachable(s: State)
    requires |s.nodes| > 0
  {
    s.nodes[0].priority == 0 ==> 0 in s.listed
  }

  ghost predicate HasStandIn(s: State) {
    exists k: nat :: StandIn(s.nodes, k)
  }

  lemma AllHealthyMembers(nodes: seq<Node>, arrivals: seq<Arrival>)
    requires Complete(nodes, arrivals) && AllHealthy(arrivals)
    ensures Members(Healthy(arrivals)) == Backups(nodes) && Distinct(Healthy(arrivals))
  {
    HealthyMembers(arrivals);
    forall i | i in Backups(nodes) ensures i in Healthy(arrivals) {
      assert i in Checked(arrivals);
      var k :| 0 <= k < |arrivals| && arrivals[k].node == i;
      assert arrivals[k] in arrivals && arrivals[k] == Arrival(i, true);
    }
  }

  /** What one all-healthy round does to the configured primary and its stand-in. */
  lemma HealthyRound(cfg: Config, s: State, arrivals: seq<Arrival>)
    requires Inv(s) && s.phase.Idle? && |s.nodes| > 0 && s.nodes[0].original == 0
    requires Complete(s.nodes, arrivals) && AllHealthy(arrivals)
    ensures var t := Run(cfg, s, RoundEvents(arrivals));
      && |t.nodes| == |s.nodes| && t.phase.Idle? && t.nodes[0].original == 0
      && t.nodes[0].priority == 0
      && (0 in t.listed <==> PrimaryReachable(s))
      && (forall k: nat :: StandIn(t.nodes, k) <==>
            StandIn(s.nodes, k) && !(s.nodes[0].priority > 0 && cfg.failbackChecks <= 1))
      && (forall k: nat :: k < |s.nodes| && s.nodes[k].priority > 0 ==> t.nodes[k].priority == t.nodes[k].original)
      && (s.nodes[0].priority == 0 && 0 in s.listed && Backups(s.nodes) != {} ==>
            t.listed == [0] + Healthy(arrivals))
  {
    var t, h := Run(cfg, s, RoundEvents(arrivals)), Healthy(arrivals);
    if Backups(s.nodes) == {} {
      NoBackupsNoRound(cfg, s, arrivals);
      NoBackups(s.nodes);
    } else {
      RoundEffect(cfg, s, arrivals);
      AllHealthyMembers(s.nodes, arrivals);
      OriginalIsFirst(s.nodes);
      OneStandInIsFirst(s);
      assert 0 in Members(h) <==> 0 in h;
      forall k: nat | k < |s.nodes|
        ensures StandIn(t.nodes, k) <==>
          StandIn(s.nodes, k) && !(s.nodes[0].priority > 0 && cfg.failbackChecks <= 1)
        ensures s.nodes[k].priority > 0 ==> t.nodes[k].priority == t.nodes[k].original
        ensures k == 0 ==> t.nodes[k].priority == 0
      {
        AllHealthyPriority(cfg, s.nodes, k);
        assert t.nodes[k].priority == RoundPriority(cfg, s.nodes, Backups(s.nodes), k);
      }
    }
  }

  /** The priority that an all-healthy round gives to node `k`. */
  lemma AllHealthyPriority(cfg: Config, nodes: seq<Node>, k: nat)
    requires Ordered(nodes) && k < |nodes| && nodes[0].original == 0
    requires nodes[0].priority > 0 ==> forall j: nat :: StandIn(nodes, j) ==> j == FirstPrimary(nodes)
    ensures var p := RoundPriority(cfg, nodes, Backups(nodes), k);
      && (p == 0 && nodes[k].original != 0 <==>
            StandIn(nodes, k) && !(nodes[0].priority > 0 && cfg.failbackChecks <= 1))
      && (nodes[k].priority > 0 ==> p == nodes[k].original)
      && (k == 0 ==> p == 0)
  {
    OriginalIsFirst(nodes);
    var h := Backups(nodes);
    assert k in h <==> nodes[k].priority > 0;
    assert 0 in h <==> nodes[0].priority > 0;
    assert FirstPrimary(nodes) == |nodes| ==> 0 in h;
    assert nodes[0].priority == 0 ==> FirstPrimary(nodes) == 0;
    if k in h && FirstPrimary(nodes) == |nodes| {
      assert (forall j :: j in h && j < |nodes| ==> nodes[k].original <= nodes[j].original) <==> k == 0;
    } else if k !in h && nodes[0].priority > 0 && nodes[k].original != 0 {
      assert StandIn(nodes, k);
    }
  }

  lemma NoBackups(nodes: seq<Node>)
    requires Backups(nodes) == {}
    ensures forall k: nat :: k < |nodes| ==> nodes[k].priority == 0
  {
    forall k: nat | k < |nodes| ensures nodes[k].priority == 0 {
      assert k !in Backups(nodes);
    }
  }

  lemma OneStandInIsFirst(s: State)
    requires Inv(s) && |s.nodes| > 0 && s.nodes[0].original == 0
    ensures s.nodes[0].priority > 0 ==> forall k: nat :: StandIn(s.nodes, k) ==> k == FirstPrimary(s.nodes)
  {
    OriginalIsFirst(s.nodes);
    if s.nodes[0].priority > 0 && FirstPrimary(s.nodes) < |s.nodes| {
      assert StandIn(s.nodes, FirstPrimary(s.nodes));
    }
  }

  /** From a state where the configured primary is at priority 0, an all-healthy round
      restores the routing exactly when it is listed and nothing stands in for it. */
  lemma SecondHealthyRound(cfg: Config, s: State, arrivals: seq<Arrival>)
    requires Inv(s) && s.phase.Idle? && |s.nodes| > 0 && s.nodes[0].original == 0
    requires s.nodes[0].priority == 0
    requires Complete(s.nodes, arrivals) && AllHealthy(arrivals)
    ensures AsConfigured(Run(cfg, s, RoundEvents(arrivals))) <==> 0 in s.listed && !HasStandIn(s)
  {
    var t := Run(cfg, s, RoundEvents(arrivals));
    HealthyRound(cfg, s, arrivals);
    RunKeeps(cfg, s, RoundEvents(arrivals));
    OriginalIsFirst(s.nodes);
    NodesStay(cfg, s, RoundEvents(arrivals));
    if 0 in s.listed && !HasStandIn(s) {
      assert forall k: nat :: k < |s.nodes| && s.nodes[k].priority == 0 ==> k == 0 || StandIn(s.nodes, k);
      AllHealthyMembers(s.nodes, arrivals);
      AsConfiguredList(cfg, s, arrivals);
    } else if HasStandIn(s) {
      var k: nat :| StandIn(s.nodes, k);
      assert StandIn(t.nodes, k);
    } else {
      assert 0 !in t.listed;
    }
  }

  lemma AsConfiguredList(cfg: Config, s: State, arrivals: seq<Arrival>)
    requires Inv(s) && s.phase.Idle? && |s.nodes| > 0 && s.nodes[0].original == 0
    requires s.nodes[0].priority == 0 && 0 in s.listed
    requires forall k: nat :: k < |s.nodes| && s.nodes[k].priority == 0 ==> k == 0
    requires Complete(s.nodes, arrivals) && AllHealthy(arrivals)
    ensures var t := Run(cfg, s, RoundEvents(arrivals));
      t.listed != [] && t.listed[0] == 0 && forall i: nat :: i < |s.nodes| ==> i in t.listed
  {
    var t, h := Run(cfg, s, RoundEvents(arrivals)), Healthy(arrivals);
    HealthyRound(cfg, s, arrivals);
    AllHealthyMembers(s.nodes, arrivals);
    if Backups(s.nodes) == {} {
      NoBackupsNoRound(cfg, s, arrivals);
      NoBackups(s.nodes);
      assert s.nodes[|s.nodes| - 1].priority == 0;
      OnlyZero(s);
    } else {
      forall i: nat | i < |s.nodes| ensures i in t.listed {
        assert i > 0 ==> i in Backups(s.nodes) && i in Members(h);
      }
    }
  }

  lemma OnlyZero(s: State)
    requires Inv(s) && 0 in s.listed
    requires |s.nodes| == 1
    ensures s.listed != [] && s.listed[0] == 0
  {
    assert s.listed[0] in s.listed && Routable(s.nodes, s.seen, s.listed[0]);
  }

  lemma {:induction false} QuietKeeps(cfg: Config, s: State, es: seq<Event>)
    requires forall e :: e in es ==> Quiet(e)
    ensures var t := Run(cfg, s, es);
      && |t.nodes| == |s.nodes| && t.listed == s.listed && t.phase == s.phase
      && forall i: nat :: i < |s.nodes| ==>
           t.nodes[i].priority == s.nodes[i].priority && t.nodes[i].original == s.nodes[i].original
  {
    if es != [] {
      QuietKeeps(cfg, s, es[..|es| - 1]);
      assert es[|es| - 1] in es;
    }
  }

  /** From every reachable state between rounds, whatever the interleaving before it, two
      all-healthy rounds with no failure between them restore the configured priorities and routing
      exactly when the configured primary is routed or displaced, and any stand-in is one that gives
      way: the threshold is 1 and the configured primary is displaced. */
  lemma TwoHealthyRounds(cfg: Config, s0: State, es: seq<Event>, first: seq<Arrival>,
                         between: seq<Event>, second: seq<Arrival>)
    requires Started(s0) && |s0.nodes| > 0 && s0.nodes[0].original == 0 && Run(cfg, s0, es).phase.Idle?
    requires Complete(Run(cfg, s0, es).nodes, first) && AllHealthy(first)
    requires forall e :: e in between ==> Quiet(e)
    requires Complete(Run(cfg, s0, es + RoundEvents(first) + between).nodes, second) && AllHealthy(second)
    ensures |Run(cfg, s0, es).nodes| > 0
    ensures AsConfigured(Run(cfg, s0, es + RoundEvents(first) + between + RoundEvents(second))) <==>
      && PrimaryReachable(Run(cfg, s0, es))
      && (!HasStandIn(Run(cfg, s0, es)) || (cfg.failbackChecks <= 1 && Run(cfg, s0, es).nodes[0].priority > 0))
  {
    ReachableInv(cfg, s0, es);
    NodesStay(cfg, s0, es);
    var s := Run(cfg, s0, es);
    var t := Run(cfg, s, RoundEvents(first));
    var u := Run(cfg, t, between);
    RunConcat(cfg, s0, es, RoundEvents(first));
    RunConcat(cfg, s0, es + RoundEvents(first), between);
    RunConcat(cfg, s0, es + RoundEvents(first) + between, RoundEvents(second));
    HealthyRound(cfg, s, first);
    RunKeeps(cfg, s, RoundEvents(first));
    RunKeeps(cfg, t, between);
    QuietKeeps(cfg, t, between);
    assert forall k: nat :: StandIn(u.nodes, k) <==> StandIn(t.nodes, k);
    assert HasStandIn(u) <==> HasStandIn(s) && !(s.nodes[0].priority > 0 && cfg.failbackChecks <= 1);
    SecondHealthyRound(cfg, u, second);
  }

  lemma OnePrimaryIff(s: State)
    requires Inv(s) && |s.nodes| > 0 && s.nodes[0].original == 0
    ensures OnePrimary(s) <==> !HasStandIn(s) || s.nodes[0].priority > 0
  {
    OriginalIsFirst(s.nodes);
    if k: nat :| StandIn(s.nodes, k) && s.nodes[0].priority == 0 {
      assert AtZero(s.nodes, 0) && AtZero(s.nodes, k);
    } else {
      forall i, j | AtZero(s.nodes, i) && AtZero(s.nodes, j) ensures i == j {
        assert i > 0 ==> StandIn(s.nodes, i);
        assert j > 0 ==> StandIn(s.nodes, j);
      }
    }
  }

  /** With threshold 1 and a configured primary that passed the startup check, a reachable state
      heals in two all-healthy rounds exactly when it does not have two primaries. */
  lemma StabilisesIff(cfg: Config, s0: State, es: seq<Event>, first: seq<Arrival>,
                      between: seq<Event>, second: seq<Arrival>)
    requires Started(s0) && cfg.failbackChecks == 1
    requires 0 in s0.listed && s0.nodes[0].original == 0 && Run(cfg, s0, es).phase.Idle?
    requires Complete(Run(cfg, s0, es).nodes, first) && AllHealthy(first)
    requires forall e :: e in between ==> Quiet(e)
    requires Complete(Run(cfg, s0, es + RoundEvents(first) + between).nodes, second) && AllHealthy(second)
    ensures AsConfigured(Run(cfg, s0, es + RoundEvents(first) + between + RoundEvents(second))) <==>
      OnePrimary(Run(cfg, s0, es))
  {
    ReachableInv(cfg, s0, es);
    PrimaryStaysRouted(cfg, s0, es);
    NodesStay(cfg, s0, es);
    TwoHealthyRounds(cfg, s0, es, first, between, second);
    OnePrimaryIff(Run(cfg, s0, es));
  }

  /** With atomic rounds, threshold 1 and a configured primary that passed the startup check, every
      reachable state heals in two all-healthy rounds. */
  lemma SelfStabilises(cfg: Config, s0: State, es: seq<Event>, first: seq<Arrival>,
                       between: seq<Event>, second: seq<Arrival>)
    requires Started(s0) && Atomic(cfg, s0, es) && cfg.errorThreshold >= 1 && cfg.failbackChecks == 1
    requires 0 in s0.listed && s0.nodes[0].original == 0 && Run(cfg, s0, es).phase.Idle?
    requires Complete(Run(cfg, s0, es).nodes, first) && AllHealthy(first)
    requires forall e :: e in between ==> Quiet(e)
    requires Complete(Run(cfg, s0, es + RoundEvents(first) + between).nodes, second) && AllHealthy(second)
    ensures AsConfigured(Run(cfg, s0, es + RoundEvents(first) + between + RoundEvents(second)))
  {
    AtomicInv(cfg, s0, es);
    StabilisesIff(cfg, s0, es, first, between, second);
  }
}
