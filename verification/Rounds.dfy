/**
 Whole health rounds: what a round does, whatever order the verdicts arrive in.
 */
module Rounds {
  import opened FailoverModel
  import opened FailoverInvariants
  import opened FailoverRuns

  /** A health check result taken from the results channel. */
  datatype Arrival = Arrival(node: nat, ok: bool)

  function Verdicts(arrivals: seq<Arrival>): (r: seq<Event>)
    ensures |r| == |arrivals|
  {
    seq(|arrivals|, k requires 0 <= k < |arrivals| => Verdict(arrivals[k].node, arrivals[k].ok))
  }

  function RoundEvents(arrivals: seq<Arrival>): seq<Event> {
    [RoundBegan] + Verdicts(arrivals) + [RoundCommitted]
  }

  /** The nodes that passed their check, in arrival order. */
  function Healthy(arrivals: seq<Arrival>): seq<nat> {
    if arrivals == [] then []
    else
      var last := arrivals[|arrivals| - 1];
      Healthy(arrivals[..|arrivals| - 1]) + if last.ok then [last.node] else []
  }

  function Checked(arrivals: seq<Arrival>): set<nat> {
    set k | 0 <= k < |arrivals| :: arrivals[k].node
  }

  ghost predicate Once(arrivals: seq<Arrival>) {
    forall a, b :: 0 <= a < b < |arrivals| ==> arrivals[a].node != arrivals[b].node
  }

  /** The channel delivers one result for each backup and then closes. */
  ghost predicate Complete(nodes: seq<Node>, arrivals: seq<Arrival>) {
    Once(arrivals) && Checked(arrivals) == Backups(nodes)
  }

  /** The backups among the first `n` nodes, in configuration order. */
  function BackupsUpTo(nodes: seq<Node>, n: nat): (r: seq<nat>)
    requires n <= |nodes|
    ensures forall a, b :: 0 <= a < b < |r| ==> r[a] < r[b]
    ensures forall i: nat :: i in r <==> i < n && nodes[i].priority > 0
  {
    if n == 0 then []
    else
      var r := BackupsUpTo(nodes, n - 1);
      assert forall a :: 0 <= a < |r| ==> r[a] in r;
      if nodes[n - 1].priority > 0 then r + [n - 1] else r
  }

  function Judged(node: Node, i: nat, arrivals: seq<Arrival>): Node {
    if Arrival(i, true) in arrivals then node.(successes := node.successes + 1, errors := 0)
    else if Arrival(i, false) in arrivals then node.(successes := 0)
    else node
  }

  lemma {:induction false} HealthyMembers(arrivals: seq<Arrival>)
    ensures forall i :: i in Healthy(arrivals) <==> Arrival(i, true) in arrivals
    ensures Once(arrivals) ==> Distinct(Healthy(arrivals))
    ensures forall i :: i in Healthy(arrivals) ==> i in Checked(arrivals)
  {
    if arrivals != [] {
      var p, last := arrivals[..|arrivals| - 1], arrivals[|arrivals| - 1];
      HealthyMembers(p);
      assert arrivals == p + [last];
      forall i | i in Healthy(arrivals) ensures i in Checked(arrivals) {
        var k :| 0 <= k < |arrivals| && arrivals[k] == Arrival(i, true);
      }
      if Once(arrivals) {
        assert Once(p);
        if last.ok {
          assert last.node !in Checked(p);
          assert last.node !in Healthy(p);
        }
      }
    }
  }

  lemma {:induction false} HealthyPosition(arrivals: seq<Arrival>, j: nat) returns (a: nat)
    requires j < |arrivals| && arrivals[j].ok
    ensures a < |Healthy(arrivals)| && Healthy(arrivals)[a] == arrivals[j].node
    ensures j == |arrivals| - 1 ==> a == |Healthy(arrivals)| - 1
  {
    var p := arrivals[..|arrivals| - 1];
    if j < |p| {
      a := HealthyPosition(p, j);
    } else {
      a := |Healthy(p)|;
    }
  }

  /** The collected nodes stand in the order in which their verdicts arrived. */
  lemma {:induction false} HealthyInOrder(arrivals: seq<Arrival>, j: nat, k: nat) returns (a: nat, b: nat)
    requires j < k < |arrivals| && arrivals[j].ok && arrivals[k].ok
    ensures a < b < |Healthy(arrivals)|
    ensures Healthy(arrivals)[a] == arrivals[j].node && Healthy(arrivals)[b] == arrivals[k].node
  {
    var p := arrivals[..|arrivals| - 1];
    if k < |p| {
      a, b := HealthyInOrder(p, j, k);
    } else {
      a := HealthyPosition(p, j);
      b := |Healthy(p)|;
    }
  }

  lemma CheckedPrefix(arrivals: seq<Arrival>)
    requires arrivals != []
    ensures Checked(arrivals) == Checked(arrivals[..|arrivals| - 1]) + {arrivals[|arrivals| - 1].node}
    ensures Once(arrivals) ==>
      Once(arrivals[..|arrivals| - 1]) && arrivals[|arrivals| - 1].node !in Checked(arrivals[..|arrivals| - 1])
  {
    var p := arrivals[..|arrivals| - 1];
    assert forall k :: 0 <= k < |p| ==> p[k].node in Checked(arrivals);
    assert arrivals[|arrivals| - 1].node in Checked(arrivals);
  }

  lemma JudgedSnoc(node: Node, i: nat, p: seq<Arrival>, last: Arrival)
    requires last.node !in Checked(p)
    ensures Judged(node, i, p + [last]) ==
      if i != last.node then Judged(node, i, p)
      else if last.ok then node.(successes := node.successes + 1, errors := 0)
      else node.(successes := 0)
  {
    assert forall k :: 0 <= k < |p| ==> p[k].node in Checked(p);
    assert Arrival(last.node, true) !in p && Arrival(last.node, false) !in p;
    assert forall a :: a in p + [last] <==> a in p || a == last;
  }

  lemma Unjudged(node: Node, i: nat, p: seq<Arrival>)
    requires i !in Checked(p)
    ensures Judged(node, i, p) == node
  {
    assert forall k :: 0 <= k < |p| ==> p[k].node in Checked(p);
  }

  /** `m` is the machine after the verdicts `arrivals` have arrived from `s`. */
  ghost predicate Gathered(s: State, arrivals: seq<Arrival>, m: State) {
    && |m.nodes| == |s.nodes| && m.listed == s.listed && m.seen == s.seen
    && m.phase == Collecting(Backups(s.nodes) - Checked(arrivals), Healthy(arrivals))
    && forall i: nat :: i < |s.nodes| ==> m.nodes[i] == Judged(s.nodes[i], i, arrivals)
  }

  lemma GatherOne(s: State, p: seq<Arrival>, last: Arrival, m: State)
    requires Gathered(s, p, m) && last.node in Backups(s.nodes) && last.node !in Checked(p)
    ensures Enabled(m, Verdict(last.node, last.ok))
    ensures Gathered(s, p + [last], Collect(m, last.node, last.ok))
  {
    var t := Collect(m, last.node, last.ok);
    assert (p + [last])[..|p|] == p;
    CheckedPrefix(p + [last]);
    assert Checked(p + [last]) == Checked(p) + {last.node};
    forall i: nat | i < |s.nodes| ensures t.nodes[i] == Judged(s.nodes[i], i, p + [last]) {
      JudgedSnoc(s.nodes[i], i, p, last);
      if i == last.node {
        Unjudged(s.nodes[i], i, p);
      }
    }
    assert Backups(s.nodes) - Checked(p) - {last.node} == Backups(s.nodes) - Checked(p + [last]);
  }

  lemma GatherNone(cfg: Config, s: State)
    requires s.phase.Idle? && Backups(s.nodes) != {}
    ensures Gathered(s, [], Run(cfg, s, [RoundBegan] + Verdicts([])))
  {
    assert [RoundBegan] + Verdicts([]) == [RoundBegan];
    assert [RoundBegan][..0] == [];
    assert Run(cfg, s, [RoundBegan]) == Begin(s);
  }

  lemma VerdictsSnoc(cfg: Config, s: State, arrivals: seq<Arrival>)
    requires arrivals != []
    ensures var p, last := arrivals[..|arrivals| - 1], arrivals[|arrivals| - 1];
      Run(cfg, s, [RoundBegan] + Verdicts(arrivals)) ==
        Step(cfg, Run(cfg, s, [RoundBegan] + Verdicts(p)), Verdict(last.node, last.ok))
  {
    var es := [RoundBegan] + Verdicts(arrivals);
    assert es[..|es| - 1] == [RoundBegan] + Verdicts(arrivals[..|arrivals| - 1]);
  }

  lemma {:induction false} AfterVerdicts(cfg: Config, s: State, arrivals: seq<Arrival>)
    requires s.phase.Idle? && Backups(s.nodes) != {}
    requires Once(arrivals) && Checked(arrivals) <= Backups(s.nodes)
    ensures Gathered(s, arrivals, Run(cfg, s, [RoundBegan] + Verdicts(arrivals)))
  {
    if arrivals == [] {
      GatherNone(cfg, s);
    } else {
      var p, last := arrivals[..|arrivals| - 1], arrivals[|arrivals| - 1];
      CheckedPrefix(arrivals);
      AfterVerdicts(cfg, s, p);
      VerdictsSnoc(cfg, s, arrivals);
      GatherOne(s, p, last, Run(cfg, s, [RoundBegan] + Verdicts(p)));
      assert arrivals == p + [last];
    }
  }

  lemma NoBackupsNoRound(cfg: Config, s: State, arrivals: seq<Arrival>)
    requires s.phase.Idle? && Backups(s.nodes) == {} && Complete(s.nodes, arrivals)
    ensures arrivals == [] && Run(cfg, s, RoundEvents(arrivals)) == s
  {
    if arrivals != [] {
      CheckedPrefix(arrivals);
    }
    assert RoundEvents([]) == [RoundBegan, RoundCommitted];
    assert [RoundBegan, RoundCommitted][..1] == [RoundBegan];
    assert [RoundBegan][..0] == [];
    assert Run(cfg, s, [RoundBegan]) == s;
  }

  /** The priority of node `i` after a round in which the nodes `h` passed their checks. */
  ghost function RoundPriority(cfg: Config, nodes: seq<Node>, h: set<nat>, i: nat): nat
    requires i < |nodes|
  {
    if i in h then
      if FirstPrimary(nodes) == |nodes|
        && (forall j :: j in h && j < |nodes| ==> nodes[i].original <= nodes[j].original)
      then 0 else nodes[i].original
    else if i == FirstPrimary(nodes) && cfg.failbackChecks <= 1 && 0 in h && nodes[0].original == 0
      then nodes[i].original
    else nodes[i].priority
  }

  /** The current primary stays at the head of the routing list. */
  ghost predicate Retained(nodes: seq<Node>, listed: seq<nat>, h: set<nat>) {
    FirstPrimary(nodes) in listed && !(0 in h && |nodes| > 0 && nodes[0].original == 0)
  }

  /** The exact effect of a round with at least one backup, in terms of the state before it. */
  lemma RoundEffect(cfg: Config, s: State, arrivals: seq<Arrival>)
    requires Inv(s) && s.phase.Idle? && Backups(s.nodes) != {} && Complete(s.nodes, arrivals)
    ensures var t, h := Run(cfg, s, RoundEvents(arrivals)), Healthy(arrivals);
      && |t.nodes| == |s.nodes| && t.phase == Idle
      && t.listed == (if Retained(s.nodes, s.listed, Members(h)) then [FirstPrimary(s.nodes)] else []) + h
      && t.seen == s.seen + Members(t.listed)
      && forall i: nat :: i < |s.nodes| ==>
           t.nodes[i] == Judged(s.nodes[i], i, arrivals).(priority := RoundPriority(cfg, s.nodes, Members(h), i))
  {
    var es := RoundEvents(arrivals);
    var opening := [RoundBegan] + Verdicts(arrivals);
    assert es[..|es| - 1] == opening;
    AfterVerdicts(cfg, s, arrivals);
    RunKeeps(cfg, s, opening);
    CommitGathered(cfg, s, Run(cfg, s, opening), arrivals);
  }

  lemma GatheredInRange(s: State, m: State, arrivals: seq<Arrival>)
    requires Complete(s.nodes, arrivals) && Gathered(s, arrivals, m)
    ensures InRange(Healthy(arrivals), |m.nodes|) && Enabled(m, RoundCommitted)
    ensures FirstPrimary(m.nodes) == FirstPrimary(s.nodes)
  {
    var h := Healthy(arrivals);
    HealthyMembers(arrivals);
    assert forall k :: 0 <= k < |h| ==> h[k] in h && h[k] in Checked(arrivals);
    SameFirstPrimary(s.nodes, m.nodes);
  }

  lemma CommitGatheredNode(cfg: Config, s: State, m: State, arrivals: seq<Arrival>, i: nat)
    requires Inv(s) && s.phase.Idle? && Complete(s.nodes, arrivals)
    requires Inv(m) && Gathered(s, arrivals, m) && i < |s.nodes| && Enabled(m, RoundCommitted)
    ensures |Commit(cfg, m).nodes| == |s.nodes|
    ensures Commit(cfg, m).nodes[i] ==
      Judged(s.nodes[i], i, arrivals).(priority := RoundPriority(cfg, s.nodes, Members(Healthy(arrivals)), i))
  {
    CommittedState(cfg, m);
    CommittedIsRound(cfg, s, m, arrivals, i);
  }

  lemma CommitGathered(cfg: Config, s: State, m: State, arrivals: seq<Arrival>)
    requires Inv(s) && s.phase.Idle? && Complete(s.nodes, arrivals)
    requires Inv(m) && Gathered(s, arrivals, m)
    ensures Enabled(m, RoundCommitted)
    ensures var t, h := Commit(cfg, m), Healthy(arrivals);
      && |t.nodes| == |s.nodes| && t.phase == Idle
      && t.listed == (if Retained(s.nodes, s.listed, Members(h)) then [FirstPrimary(s.nodes)] else []) + h
      && t.seen == s.seen + Members(t.listed)
      && forall i: nat :: i < |s.nodes| ==>
           t.nodes[i] == Judged(s.nodes[i], i, arrivals).(priority := RoundPriority(cfg, s.nodes, Members(h), i))
  {
    var h := Healthy(arrivals);
    GatheredInRange(s, m, arrivals);
    forall i: nat | i < |s.nodes|
      ensures |Commit(cfg, m).nodes| == |s.nodes|
      ensures Commit(cfg, m).nodes[i] ==
        Judged(s.nodes[i], i, arrivals).(priority := RoundPriority(cfg, s.nodes, Members(h), i))
    {
      CommitGatheredNode(cfg, s, m, arrivals, i);
    }
    CommitGatheredList(cfg, s, m, arrivals);
  }

  lemma CommitGatheredList(cfg: Config, s: State, m: State, arrivals: seq<Arrival>)
    requires Inv(s) && s.phase.Idle? && Complete(s.nodes, arrivals)
    requires Inv(m) && Gathered(s, arrivals, m) && Enabled(m, RoundCommitted)
    ensures var t, h := Commit(cfg, m), Healthy(arrivals);
      && |t.nodes| == |s.nodes| && t.phase == Idle
      && t.listed == (if Retained(s.nodes, s.listed, Members(h)) then [FirstPrimary(s.nodes)] else []) + h
      && t.seen == s.seen + Members(t.listed)
  {
    var h := Healthy(arrivals);
    GatheredInRange(s, m, arrivals);
    CommittedState(cfg, m);
    CollectedReturn(cfg, s, arrivals, m);
    assert 0 in h ==> |s.nodes| > 0 by {
      if 0 in h {
        var k :| 0 <= k < |h| && h[k] == 0;
      }
    }
  }

  lemma SameFirstPrimary(a: seq<Node>, b: seq<Node>)
    requires |a| == |b| && forall i: nat :: i < |a| ==> a[i].priority == b[i].priority
    ensures FirstPrimary(a) == FirstPrimary(b)
  {
  }

  /** In terms of the state before the round: when the configured primary returns and when
      the current primary yields to it. */
  lemma CollectedReturn(cfg: Config, s: State, arrivals: seq<Arrival>, m: State)
    requires Inv(s) && s.phase.Idle? && Complete(s.nodes, arrivals)
    requires |m.nodes| == |s.nodes| && InRange(Healthy(arrivals), |m.nodes|)
    requires forall i: nat :: i < |s.nodes| ==> m.nodes[i] == Judged(s.nodes[i], i, arrivals)
    ensures var h := Healthy(arrivals);
      && (Returns(m.nodes, h) <==> 0 in h && s.nodes[0].original == 0)
      && (Yields(cfg, m.nodes, h) <==>
            FirstPrimary(s.nodes) < |s.nodes| && 0 in h && s.nodes[0].original == 0 && cfg.failbackChecks <= 1)
  {
    var h := Healthy(arrivals);
    HealthyMembers(arrivals);
    OriginalIsFirst(s.nodes);
    SameFirstPrimary(s.nodes, m.nodes);
    assert forall k :: 0 <= k < |h| && m.nodes[h[k]].original == 0 ==> h[k] == 0 && h[k] in h;
    if 0 in h {
      var k :| 0 <= k < |h| && h[k] == 0;
      assert 0 in Backups(s.nodes);
      assert s.nodes[0].original == 0 ==> m.nodes[h[k]].successes == 1;
    }
  }

  lemma CommittedIsRound(cfg: Config, s: State, m: State, arrivals: seq<Arrival>, i: nat)
    requires Inv(s) && s.phase.Idle? && Complete(s.nodes, arrivals)
    requires |m.nodes| == |s.nodes| && InRange(Healthy(arrivals), |m.nodes|)
    requires forall j: nat :: j < |s.nodes| ==> m.nodes[j] == Judged(s.nodes[j], j, arrivals)
    requires i < |s.nodes|
    ensures var h := Healthy(arrivals);
      && CommittedPriority(cfg, m.nodes, h, i) == RoundPriority(cfg, s.nodes, Members(h), i)
      && (CommitClears(cfg, m.nodes, h, i) ==> m.nodes[i].errors == 0)
  {
    var h := Healthy(arrivals);
    HealthyMembers(arrivals);
    SameFirstPrimary(s.nodes, m.nodes);
    CollectedReturn(cfg, s, arrivals, m);
    assert i in h ==> m.nodes[i].errors == 0;
    assert Highest(m.nodes, h, i) <==> i in h && forall j :: j in h ==> m.nodes[i].original <= m.nodes[j].original;
  }
}
