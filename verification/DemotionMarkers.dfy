/**
 Whether the priority given by a demotion can be mistaken for a configured one.
 */
module DemotionMarkers {
  import opened FailoverModel
  import opened FailoverInvariants
  import opened FailoverRuns
  import opened Rounds
  import opened Stabilisation
  import opened Thresholds

  /** A listed node whose priority is the one given by a demotion. */
  ghost predicate MarkerListed(cfg: Config, s: State, es: seq<Event>, i: nat) {
    var t := Run(cfg, s, es);
    i < |t.nodes| && i in t.listed && t.nodes[i].priority == |s.nodes|
  }

  /** Every backup passes its check. */
  function AllUp(nodes: seq<Node>): seq<Arrival> {
    var backups := BackupsUpTo(nodes, |nodes|);
    seq(|backups|, (k: nat) requires k < |backups| => Arrival(backups[k], true))
  }

  lemma AllUpComplete(nodes: seq<Node>)
    ensures Complete(nodes, AllUp(nodes)) && AllHealthy(AllUp(nodes))
    ensures Members(Healthy(AllUp(nodes))) == Backups(nodes)
  {
    var a, backups := AllUp(nodes), BackupsUpTo(nodes, |nodes|);
    assert forall k :: 0 <= k < |a| ==> a[k].node == backups[k] && backups[k] in backups;
    forall i | i in Backups(nodes) ensures i in Checked(a) {
      assert i in backups;
    }
    assert Checked(a) == Backups(nodes);
    AllHealthyMembers(nodes, a);
  }

  /** A node at the colliding priority that some other node outranks is listed with it by one
      all-healthy round. */
  lemma ListedByOneRound(cfg: Config, s: State, i: nat)
    requires Started(s) && 0 < i < |s.nodes| && s.nodes[i].original == |s.nodes|
    ensures MarkerListed(cfg, s, RoundEvents(AllUp(s.nodes)), i)
  {
    var a := AllUp(s.nodes);
    StartedInv(s);
    AllUpComplete(s.nodes);
    assert i in Backups(s.nodes);
    RoundEffect(cfg, s, a);
    OriginalIsFirst(s.nodes);
    assert i in Members(Healthy(a));
    assert FirstPrimary(s.nodes) == |s.nodes| ==> 0 in Backups(s.nodes);
  }

  /** Node 1 is promoted, and then node 0 passes its check. */
  function SecondFirst(n: nat): seq<Event>
    requires n >= 2
  {
    RoundEvents(PromoteOne(n)) + RoundEvents(BringBackZero(n))
  }

  lemma ListedByTwoRounds(cfg: Config, s: State)
    requires Started(s) && |s.nodes| >= 2 && s.nodes[0].original == |s.nodes|
    ensures MarkerListed(cfg, s, SecondFirst(|s.nodes|), 0)
  {
    var n := |s.nodes|;
    var first, second := PromoteOne(n), BringBackZero(n);
    StartedInv(s);
    OriginalIsFirst(s.nodes);
    PromoteOneComplete(s.nodes);
    RoundEffect(cfg, s, first);
    RunKeeps(cfg, s, RoundEvents(first));
    var p := Run(cfg, s, RoundEvents(first));
    PromotedOne(cfg, s, p);
    BringBackZeroComplete(p.nodes);
    RunConcat(cfg, s, RoundEvents(first), RoundEvents(second));
    ReturnsConfigured(cfg, p, second);
    NodesStay(cfg, s, RoundEvents(first));
  }

  /** Node 0 passes its check while node 1 is primary. */
  lemma ReturnsConfigured(cfg: Config, p: State, arrivals: seq<Arrival>)
    requires Inv(p) && p.phase.Idle? && Backups(p.nodes) != {} && Complete(p.nodes, arrivals)
    requires Members(Healthy(arrivals)) == {0} && |p.nodes| >= 2
    requires forall j :: 0 <= j < |p.nodes| ==> (p.nodes[j].priority > 0 <==> j != 1)
    ensures var t := Run(cfg, p, RoundEvents(arrivals));
      |t.nodes| == |p.nodes| && 0 in t.listed && t.nodes[0].priority == p.nodes[0].original
  {
    RoundEffect(cfg, p, arrivals);
    assert 0 in Members(Healthy(arrivals));
    assert p.nodes[0].priority > 0 && p.nodes[1].priority == 0;
  }

  /** After a startup with some healthy node, no listed node ever has the demotion priority
      exactly when no configured priority collides with it, that is when no unparsable URL left
      a gap that wide. */
  lemma DemotionMarkerIsUnambiguous(cfg: Config, s: State)
    requires Started(s) && s.listed != []
    ensures (forall i: nat :: i < |s.nodes| ==> s.nodes[i].original != |s.nodes|)
      <==> (forall es: seq<Event>, i: nat :: !MarkerListed(cfg, s, es, i))
  {
    if forall i: nat :: i < |s.nodes| ==> s.nodes[i].original != |s.nodes| {
      forall es: seq<Event>, i: nat ensures !MarkerListed(cfg, s, es, i) {
        RoutingListSafe(cfg, s, es, Run(cfg, s, es));
      }
    } else {
      var i: nat :| i < |s.nodes| && s.nodes[i].original == |s.nodes|;
      CollidingIsListed(cfg, s, i);
    }
  }

  lemma CollidingIsListed(cfg: Config, s: State, i: nat)
    requires Started(s) && s.listed != [] && i < |s.nodes| && s.nodes[i].original == |s.nodes|
    ensures exists es :: MarkerListed(cfg, s, es, i)
  {
    if i in s.listed {
      assert Run(cfg, s, []) == s;
      assert MarkerListed(cfg, s, [], i);
    } else if i > 0 {
      ListedByOneRound(cfg, s, i);
    } else {
      assert s.listed[0] != 0 && s.listed[0] < |s.nodes|;
      ListedByTwoRounds(cfg, s);
    }
  }
}
