/**
 What every interleaving of request events and health rounds keeps.
 */
module FailoverInvariants {
  import opened FailoverModel

  ghost predicate InDomain(nodes: seq<Node>, i: nat) {
    i < |nodes| &&
    (nodes[i].priority == 0 || nodes[i].priority == nodes[i].original || nodes[i].priority == |nodes|)
  }

  /** Every priority is 0, the configured one, or the number of nodes. */
  ghost predicate PriorityDomain(s: State) {
    forall i: nat :: i < |s.nodes| ==> InDomain(s.nodes, i)
  }

  /** A node a demotion has displaced is not routable. */
  ghost predicate Routable(nodes: seq<Node>, seen: set<nat>, i: nat) {
    && i < |nodes|
    && i in seen
    && (nodes[i].priority == 0 || nodes[i].priority == nodes[i].original)
  }

  /** The routing list has no duplicates and no displaced node. */
  ghost predicate ListOk(s: State) {
    && Distinct(s.listed)
    && (forall i :: i in s.listed ==> Routable(s.nodes, s.seen, i))
  }

  ghost predicate ListedPrimary(nodes: seq<Node>, listed: seq<nat>, i: nat) {
    i < |nodes| && i in listed && nodes[i].priority == 0
  }

  ghost predicate OneListedPrimary(s: State) {
    forall i, j :: ListedPrimary(s.nodes, s.listed, i) && ListedPrimary(s.nodes, s.listed, j) ==> i == j
  }

  /** Node `i` stands in for the configured primary. */
  ghost predicate StandIn(nodes: seq<Node>, i: nat) {
    i < |nodes| && nodes[i].original != 0 && nodes[i].priority == 0
  }

  ghost predicate OneStandIn(s: State) {
    forall i, j :: StandIn(s.nodes, i) && StandIn(s.nodes, j) ==> i == j
  }

  ghost predicate AtZero(nodes: seq<Node>, i: nat) {
    i < |nodes| && nodes[i].priority == 0
  }

  ghost predicate IsBackup(nodes: seq<Node>, i: nat) {
    i < |nodes| && nodes[i].priority > 0
  }

  ghost predicate RoundOk(s: State) {
    s.phase.Collecting? ==>
      && (forall i :: i in s.phase.waiting ==> IsBackup(s.nodes, i))
      && (forall i :: i in s.phase.healthy ==> IsBackup(s.nodes, i) && i !in s.phase.waiting)
      && Distinct(s.phase.healthy)
  }

  ghost predicate Collected(s: State, i: nat) {
    s.phase.Collecting? && i in s.phase.healthy
  }

  /** The configured primary, when displaced, has no consecutive success on record except
      the one of the round in progress. */
  ghost predicate NoSuccessStreak(s: State) {
    |s.nodes| > 0 && s.nodes[0].original == 0 && s.nodes[0].priority > 0 ==>
      s.nodes[0].successes <= if Collected(s, 0) then 1 else 0
  }

  ghost predicate SeenOk(s: State) {
    forall i :: i in s.seen ==> i < |s.nodes|
  }

  ghost predicate Inv(s: State) {
    && Ordered(s.nodes)
    && PriorityDomain(s)
    && SeenOk(s)
    && ListOk(s)
    && OneListedPrimary(s)
    && OneStandIn(s)
    && RoundOk(s)
    && NoSuccessStreak(s)
  }

  // ---------------------------------------------------------------- the commit of a round

  /** The configured primary is among the healthy nodes of the round. */
  ghost predicate Returns(nodes: seq<Node>, h: seq<nat>)
    requires InRange(h, |nodes|)
  {
    exists k :: 0 <= k < |h| && nodes[h[k]].original == 0
  }

  /** `i` is the node of `h` configured at the highest priority. */
  ghost predicate Highest(nodes: seq<Node>, h: seq<nat>, i: nat)
    requires InRange(h, |nodes|) && i < |nodes|
  {
    i in h && forall k :: 0 <= k < |h| ==> nodes[i].original <= nodes[h[k]].original
  }

  /** The round gives the priority of the current primary back to the configured one. */
  ghost predicate Yields(cfg: Config, nodes: seq<Node>, h: seq<nat>)
    requires InRange(h, |nodes|)
  {
    && FirstPrimary(nodes) < |nodes|
    && exists k :: 0 <= k < |h| && nodes[h[k]].original == 0 && nodes[h[k]].successes >= cfg.failbackChecks
  }

  ghost function CommittedPriority(cfg: Config, nodes: seq<Node>, h: seq<nat>, i: nat): nat
    requires InRange(h, |nodes|) && i < |nodes|
  {
    if i in h then
      if FirstPrimary(nodes) == |nodes| && Highest(nodes, h, i) then 0 else nodes[i].original
    else if i == FirstPrimary(nodes) && Yields(cfg, nodes, h) then nodes[i].original
    else nodes[i].priority
  }

  lemma OriginalIsFirst(nodes: seq<Node>)
    requires Ordered(nodes)
    ensures forall i :: 0 <= i < |nodes| && nodes[i].original == 0 ==> i == 0
  {
    assert forall i :: 0 < i < |nodes| ==> nodes[0].original < nodes[i].original;
  }

  /** The nodes of a round have been backups since it began. */
  ghost predicate AllBackups(nodes: seq<Node>, h: seq<nat>)
    requires InRange(h, |nodes|)
  {
    forall k :: 0 <= k < |h| ==> nodes[h[k]].priority > 0
  }

  /** The priorities after failback and restoration, before any promotion. */
  ghost function RestoredPriority(cfg: Config, nodes: seq<Node>, h: seq<nat>, i: nat): nat
    requires InRange(h, |nodes|) && i < |nodes|
  {
    if i in h then nodes[i].original
    else if i == FirstPrimary(nodes) && Yields(cfg, nodes, h) then nodes[i].original
    else nodes[i].priority
  }

  ghost function Reinstated(cfg: Config, nodes: seq<Node>, h: seq<nat>): (r: seq<Node>)
    requires InRange(h, |nodes|)
    ensures |r| == |nodes|
  {
    AfterRestore(AfterFailback(cfg, nodes, h), h)
  }

  lemma FailsBackIff(cfg: Config, nodes: seq<Node>, h: seq<nat>)
    requires InRange(h, |nodes|) && Ordered(nodes) && AllBackups(nodes, h)
    ensures FailsBack(cfg, nodes, h) <==> Yields(cfg, nodes, h)
    ensures OriginalIn(nodes, h) < |h| <==> Returns(nodes, h)
    ensures Returns(nodes, h) ==> h[OriginalIn(nodes, h)] == 0
  {
    OriginalIsFirst(nodes);
    var p := OriginalIn(nodes, h);
    assert forall k :: 0 <= k < |h| && nodes[h[k]].original == 0 ==> h[k] == 0;
  }

  lemma RestoredEffect(cfg: Config, nodes: seq<Node>, h: seq<nat>)
    requires InRange(h, |nodes|) && Ordered(nodes) && AllBackups(nodes, h)
    ensures forall i :: 0 <= i < |nodes| ==> Reinstated(cfg, nodes, h)[i] == nodes[i].(
        priority := RestoredPriority(cfg, nodes, h, i),
        errors := if i == 0 && Yields(cfg, nodes, h) then 0 else nodes[i].errors)
  {
    FailsBackIff(cfg, nodes, h);
    OriginalIsFirst(nodes);
    var p := OriginalIn(nodes, h);
    if FailsBack(cfg, nodes, h) {
      assert nodes[h[p]].original == 0 && h[p] in h;
    }
  }

  /** Restoration moves the first primary only when it brings the configured one back. */
  lemma RestoredPrimary(cfg: Config, nodes: seq<Node>, h: seq<nat>)
    requires InRange(h, |nodes|) && Ordered(nodes) && AllBackups(nodes, h)
    ensures FirstPrimary(Reinstated(cfg, nodes, h)) == if Returns(nodes, h) then 0 else FirstPrimary(nodes)
  {
    RestoredEffect(cfg, nodes, h);
    var r := Reinstated(cfg, nodes, h);
    if Returns(nodes, h) {
      FailsBackIff(cfg, nodes, h);
      var p := OriginalIn(nodes, h);
      assert h[p] in h && r[0].priority == 0;
    } else {
      assert !Yields(cfg, nodes, h);
      forall i | 0 <= i < |nodes| ensures r[i].priority == 0 <==> nodes[i].priority == 0 {
        if i in h {
          var k :| 0 <= k < |h| && h[k] == i;
          assert nodes[h[k]].priority > 0 && nodes[h[k]].original != 0;
        }
      }
    }
  }

  lemma HighestIsUnique(nodes: seq<Node>, h: seq<nat>, i: nat, j: nat)
    requires InRange(h, |nodes|) && Ordered(nodes) && i < |nodes| && j < |nodes|
    requires Highest(nodes, h, i) && Highest(nodes, h, j)
    ensures i == j
  {
    var a :| 0 <= a < |h| && h[a] == i;
    var b :| 0 <= b < |h| && h[b] == j;
    assert nodes[i].original == nodes[j].original;
  }

  /** The node promoted, if one is, is the one configured at the highest priority. */
  lemma PromotedIsHighest(cfg: Config, nodes: seq<Node>, h: seq<nat>)
    requires InRange(h, |nodes|) && Ordered(nodes) && AllBackups(nodes, h) && !Returns(nodes, h)
    ensures var p := Promotion(Reinstated(cfg, nodes, h), h);
      && (p == |h| <==> h == [])
      && (p < |h| ==> forall i :: 0 <= i < |nodes| ==> (Highest(nodes, h, i) <==> i == h[p]))
  {
    RestoredEffect(cfg, nodes, h);
    var r := Reinstated(cfg, nodes, h);
    assert forall k :: 0 <= k < |h| ==>
      h[k] in h && r[h[k]].priority == nodes[h[k]].original > 0 && r[h[k]].original > 0;
    assert OriginalIn(r, h) == |h|;
    var p := LeastBackupIn(r, h);
    if p < |h| {
      assert Highest(nodes, h, h[p]);
      forall i | 0 <= i < |nodes| && Highest(nodes, h, i) ensures i == h[p] {
        HighestIsUnique(nodes, h, i, h[p]);
      }
    }
  }

  /** The whole effect of a commit on the nodes, in terms of those it starts from. */
  lemma CommitEffect(cfg: Config, nodes: seq<Node>, h: seq<nat>)
    requires InRange(h, |nodes|) && Ordered(nodes) && AllBackups(nodes, h)
    ensures var t := AfterPromotion(Reinstated(cfg, nodes, h), h);
      forall i :: 0 <= i < |nodes| ==> t[i] == nodes[i].(
        priority := CommittedPriority(cfg, nodes, h, i),
        errors := if CommitClears(cfg, nodes, h, i) then 0 else nodes[i].errors)
  {
    RestoredEffect(cfg, nodes, h);
    RestoredPrimary(cfg, nodes, h);
    if Returns(nodes, h) {
      ReturnIsHighest(nodes, h);
    } else {
      PromotedIsHighest(cfg, nodes, h);
    }
  }

  /** The commit sets the error counter of `i` to 0. */
  ghost predicate CommitClears(cfg: Config, nodes: seq<Node>, h: seq<nat>, i: nat)
    requires InRange(h, |nodes|) && i < |nodes|
  {
    if Returns(nodes, h) then i == 0 && Yields(cfg, nodes, h)
    else FirstPrimary(nodes) == |nodes| && Highest(nodes, h, i)
  }

  lemma ReturnIsHighest(nodes: seq<Node>, h: seq<nat>)
    requires InRange(h, |nodes|) && Ordered(nodes) && Returns(nodes, h)
    ensures 0 in h && nodes[0].original == 0
    ensures forall i :: 0 <= i < |nodes| && Highest(nodes, h, i) ==> i == 0
  {
    OriginalIsFirst(nodes);
    var k :| 0 <= k < |h| && nodes[h[k]].original == 0;
    assert h[k] == 0;
    assert Highest(nodes, h, 0);
    forall i | 0 <= i < |nodes| && Highest(nodes, h, i) ensures i == 0 {
      HighestIsUnique(nodes, h, i, 0);
    }
  }

  lemma KeptPrimary(cfg: Config, nodes: seq<Node>, h: seq<nat>, listed: seq<nat>)
    requires InRange(h, |nodes|) && Ordered(nodes) && AllBackups(nodes, h)
    requires 0 in listed ==> |nodes| > 0 && (nodes[0].priority == 0 || nodes[0].priority == nodes[0].original)
    requires FirstPrimary(nodes) in listed ==> FirstPrimary(nodes) < |nodes|
    ensures Kept(Reinstated(cfg, nodes, h), listed) ==
      if FirstPrimary(nodes) in listed && !Returns(nodes, h) then [FirstPrimary(nodes)] else []
  {
    RestoredPrimary(cfg, nodes, h);
    if Returns(nodes, h) {
      ReturnIsHighest(nodes, h);
      var k :| 0 <= k < |h| && h[k] == 0;
      assert nodes[h[k]].priority > 0;
    }
  }

  lemma CommittedState(cfg: Config, s: State)
    requires Inv(s) && Enabled(s, RoundCommitted)
    ensures var h, t := s.phase.healthy, Commit(cfg, s);
      && AllBackups(s.nodes, h)
      && |t.nodes| == |s.nodes|
      && (forall i :: 0 <= i < |s.nodes| ==> t.nodes[i] == s.nodes[i].(
            priority := CommittedPriority(cfg, s.nodes, h, i),
            errors := if CommitClears(cfg, s.nodes, h, i) then 0 else s.nodes[i].errors))
      && t.listed == (if FirstPrimary(s.nodes) in s.listed && !Returns(s.nodes, h)
                      then [FirstPrimary(s.nodes)] else []) + h
      && t.phase == Idle
      && t.seen == s.seen + Members(t.listed)
  {
    var h := s.phase.healthy;
    assert AllBackups(s.nodes, h) by {
      assert forall k :: 0 <= k < |h| ==> h[k] in h && IsBackup(s.nodes, h[k]);
    }
    assert 0 in s.listed ==> Routable(s.nodes, s.seen, 0);
    assert FirstPrimary(s.nodes) in s.listed ==> Routable(s.nodes, s.seen, FirstPrimary(s.nodes));
    CommitEffect(cfg, s.nodes, h);
    KeptPrimary(cfg, s.nodes, h, s.listed);
  }

  /** After a commit at most one node at priority 0 is a node of the round or the kept one. */
  lemma CommittedPrimaries(cfg: Config, nodes: seq<Node>, h: seq<nat>, i: nat, j: nat)
    requires InRange(h, |nodes|) && Ordered(nodes) && AllBackups(nodes, h)
    requires i in h && j < |nodes| && (j in h || (j == FirstPrimary(nodes) && !Returns(nodes, h)))
    requires CommittedPriority(cfg, nodes, h, i) == 0 && CommittedPriority(cfg, nodes, h, j) == 0
    ensures i == j
  {
    OriginalIsFirst(nodes);
    var k :| 0 <= k < |h| && h[k] == i;
    if Returns(nodes, h) {
      ReturnIsHighest(nodes, h);
    } else {
      assert nodes[h[k]].original != 0;
      assert FirstPrimary(nodes) == |nodes| && Highest(nodes, h, i);
      var l :| 0 <= l < |h| && h[l] == j;
      assert nodes[h[l]].original != 0;
      HighestIsUnique(nodes, h, i, j);
    }
  }

  lemma DistinctWithHead(i: nat, h: seq<nat>)
    requires Distinct(h) && i !in h
    ensures Distinct([i] + h)
  {
  }

  lemma CommitKeepsDistinct(cfg: Config, s: State)
    requires Inv(s) && Enabled(s, RoundCommitted)
    ensures Distinct(Commit(cfg, s).listed)
  {
    CommittedState(cfg, s);
    var h, cp := s.phase.healthy, FirstPrimary(s.nodes);
    if cp in s.listed && !Returns(s.nodes, h) {
      assert cp in h ==> IsBackup(s.nodes, cp);
      DistinctWithHead(cp, h);
    } else {
      assert [] + h == h;
    }
  }

  lemma CommitKeepsRoutable(cfg: Config, s: State, i: nat)
    requires Inv(s) && Enabled(s, RoundCommitted) && i in Commit(cfg, s).listed
    ensures var t := Commit(cfg, s); Routable(t.nodes, t.seen, i)
  {
    CommittedState(cfg, s);
    var h, cp := s.phase.healthy, FirstPrimary(s.nodes);
    if i in h {
      assert IsBackup(s.nodes, i);
    } else {
      assert i == cp && Routable(s.nodes, s.seen, cp);
    }
  }

  lemma CommitKeepsList(cfg: Config, s: State)
    requires Inv(s) && Enabled(s, RoundCommitted)
    ensures ListOk(Commit(cfg, s)) && SeenOk(Commit(cfg, s))
  {
    var t := Commit(cfg, s);
    CommitKeepsDistinct(cfg, s);
    forall i | i in t.listed ensures Routable(t.nodes, t.seen, i) {
      CommitKeepsRoutable(cfg, s, i);
    }
    assert |t.nodes| == |s.nodes|;
  }

  lemma CommitKeepsOneListed(cfg: Config, s: State)
    requires Inv(s) && Enabled(s, RoundCommitted)
    ensures OneListedPrimary(Commit(cfg, s))
  {
    CommittedState(cfg, s);
    var h, t, cp := s.phase.healthy, Commit(cfg, s), FirstPrimary(s.nodes);
    assert forall i :: i in t.listed ==> i in h || (i == cp && !Returns(s.nodes, h));
    forall i, j | ListedPrimary(t.nodes, t.listed, i) && ListedPrimary(t.nodes, t.listed, j) ensures i == j {
      if i in h {
        CommittedPrimaries(cfg, s.nodes, h, i, j);
      } else if j in h {
        CommittedPrimaries(cfg, s.nodes, h, j, i);
      }
    }
  }

  lemma NotAmongHealthy(nodes: seq<Node>, h: seq<nat>)
    requires InRange(h, |nodes|) && !Returns(nodes, h)
    ensures forall i: nat :: i in h ==> i < |nodes| && nodes[i].original != 0
  {
    assert forall k :: 0 <= k < |h| ==> nodes[h[k]].original != 0;
  }

  lemma HealthyAreBackups(nodes: seq<Node>, h: seq<nat>, i: nat)
    requires InRange(h, |nodes|) && AllBackups(nodes, h) && i in h
    ensures i < |nodes| && nodes[i].priority > 0
  {
    var k :| 0 <= k < |h| && h[k] == i;
  }

  /** A node at priority 0 stands in for the configured primary, and is the only one to do so,
      when the configured primary is displaced. */
  lemma ZeroIsFirst(s: State, i: nat)
    requires Inv(s) && |s.nodes| > 0 && s.nodes[0].original == 0 && s.nodes[0].priority > 0
    ensures AtZero(s.nodes, i) <==> i == FirstPrimary(s.nodes) && i < |s.nodes|
  {
    var cp := FirstPrimary(s.nodes);
    OriginalIsFirst(s.nodes);
    if AtZero(s.nodes, i) {
      assert StandIn(s.nodes, i) && StandIn(s.nodes, cp);
    }
  }

  /** Who is primary after a commit that brings the configured primary back. */
  lemma ZeroOnReturn(cfg: Config, s: State, i: nat)
    requires Inv(s) && Enabled(s, RoundCommitted) && Returns(s.nodes, s.phase.healthy)
    ensures AtZero(Commit(cfg, s).nodes, i) <==>
      i == 0 || (i == FirstPrimary(s.nodes) && i < |s.nodes| && !Yields(cfg, s.nodes, s.phase.healthy))
    ensures 0 in s.phase.healthy && s.nodes[0].original == 0 && s.nodes[0].priority > 0
  {
    var h := s.phase.healthy;
    CommittedState(cfg, s);
    ReturnIsHighest(s.nodes, h);
    HealthyAreBackups(s.nodes, h, 0);
    OriginalIsFirst(s.nodes);
    ZeroIsFirst(s, i);
    if i in h {
      HealthyAreBackups(s.nodes, h, i);
    }
  }

  /** Who is primary after a commit that does not. */
  lemma ZeroWithoutReturn(cfg: Config, s: State, i: nat)
    requires Inv(s) && Enabled(s, RoundCommitted) && !Returns(s.nodes, s.phase.healthy)
    ensures AtZero(Commit(cfg, s).nodes, i) <==>
      if FirstPrimary(s.nodes) < |s.nodes| then AtZero(s.nodes, i)
      else i < |s.nodes| && Highest(s.nodes, s.phase.healthy, i)
  {
    var h := s.phase.healthy;
    CommittedState(cfg, s);
    NotAmongHealthy(s.nodes, h);
    if i in h {
      HealthyAreBackups(s.nodes, h, i);
    }
  }

  ghost predicate ListsPrimary(s: State) {
    exists i :: ListedPrimary(s.nodes, s.listed, i)
  }

  lemma ListsOnReturn(cfg: Config, s: State)
    requires Inv(s) && Enabled(s, RoundCommitted) && Returns(s.nodes, s.phase.healthy)
    ensures ListsPrimary(Commit(cfg, s))
  {
    CommittedState(cfg, s);
    ZeroOnReturn(cfg, s, 0);
    assert ListedPrimary(Commit(cfg, s).nodes, Commit(cfg, s).listed, 0);
  }

  lemma ListsKept(cfg: Config, s: State)
    requires Inv(s) && Enabled(s, RoundCommitted) && !Returns(s.nodes, s.phase.healthy)
    requires FirstPrimary(s.nodes) < |s.nodes|
    ensures ListsPrimary(Commit(cfg, s)) <==> FirstPrimary(s.nodes) in s.listed
  {
    var t, h, cp := Commit(cfg, s), s.phase.healthy, FirstPrimary(s.nodes);
    CommittedState(cfg, s);
    ZeroWithoutReturn(cfg, s, cp);
    if cp in s.listed {
      assert ListedPrimary(t.nodes, t.listed, cp);
    } else {
      forall i ensures !ListedPrimary(t.nodes, t.listed, i) {
        if i in h {
          HealthyAreBackups(s.nodes, h, i);
          ZeroWithoutReturn(cfg, s, i);
        }
      }
    }
  }

  lemma {:induction false} HighestExists(nodes: seq<Node>, h: seq<nat>)
    requires InRange(h, |nodes|) && h != []
    ensures exists i :: i in h && i < |nodes| && Highest(nodes, h, i)
  {
    var p, last := h[..|h| - 1], h[|h| - 1];
    if p == [] {
      assert Highest(nodes, h, last);
    } else {
      HighestExists(nodes, p);
      var i :| i in p && i < |nodes| && Highest(nodes, p, i);
      var top := if nodes[last].original < nodes[i].original then last else i;
      assert forall k :: 0 <= k < |p| ==> h[k] == p[k];
      assert top in h && Highest(nodes, h, top);
    }
  }

  lemma ListsPromoted(cfg: Config, s: State)
    requires Inv(s) && Enabled(s, RoundCommitted) && !Returns(s.nodes, s.phase.healthy)
    requires FirstPrimary(s.nodes) == |s.nodes|
    ensures ListsPrimary(Commit(cfg, s)) <==> s.phase.healthy != []
  {
    var t, h := Commit(cfg, s), s.phase.healthy;
    CommittedState(cfg, s);
    if h != [] {
      HighestExists(s.nodes, h);
      var i :| i in h && i < |s.nodes| && Highest(s.nodes, h, i);
      ZeroWithoutReturn(cfg, s, i);
      assert ListedPrimary(t.nodes, t.listed, i);
    } else {
      assert FirstPrimary(s.nodes) in s.listed ==> Routable(s.nodes, s.seen, FirstPrimary(s.nodes));
      assert t.listed == [];
    }
  }

  /** A commit leaves a primary in the routing list exactly when the configured primary passed its
      check, or the current primary was listed before, or there was none and some node passed. */
  lemma CommitListsPrimaryIff(cfg: Config, s: State)
    requires Inv(s) && Enabled(s, RoundCommitted)
    ensures ListsPrimary(Commit(cfg, s)) <==>
      || Returns(s.nodes, s.phase.healthy)
      || if FirstPrimary(s.nodes) < |s.nodes| then FirstPrimary(s.nodes) in s.listed else s.phase.healthy != []
  {
    if Returns(s.nodes, s.phase.healthy) {
      ListsOnReturn(cfg, s);
    } else if FirstPrimary(s.nodes) < |s.nodes| {
      ListsKept(cfg, s);
    } else {
      ListsPromoted(cfg, s);
    }
  }

  lemma CommitKeepsOneStandIn(cfg: Config, s: State)
    requires Inv(s) && Enabled(s, RoundCommitted)
    ensures OneStandIn(Commit(cfg, s))
  {
    CommittedState(cfg, s);
    var h, t := s.phase.healthy, Commit(cfg, s);
    forall i, j | StandIn(t.nodes, i) && StandIn(t.nodes, j) ensures i == j {
      if i in h && j in h {
        HighestIsUnique(s.nodes, h, i, j);
      } else if i !in h && j !in h {
        assert StandIn(s.nodes, i) && StandIn(s.nodes, j);
      }
    }
  }

  lemma CommitKeepsNodes(cfg: Config, s: State)
    requires Inv(s) && Enabled(s, RoundCommitted)
    ensures var t := Commit(cfg, s);
      Ordered(t.nodes) && PriorityDomain(t) && OneStandIn(t) && RoundOk(t) && NoSuccessStreak(t)
  {
    CommittedState(cfg, s);
    CommitKeepsOneStandIn(cfg, s);
    var t := Commit(cfg, s);
    forall i: nat | i < |t.nodes| ensures InDomain(t.nodes, i) {
      assert InDomain(s.nodes, i);
    }
  }

  lemma FailKeeps(cfg: Config, s: State, i: nat)
    requires Inv(s) && i < |s.nodes|
    ensures Inv(Fail(cfg, s, i))
  {
    var t := Fail(cfg, s, i);
    assert forall j :: j in t.listed ==> j in s.listed;
    KeepsFrame(s, t, i);
  }

  /** A step that leaves the nodes other than `i` alone, does not give `i` priority 0, and
      keeps the round and drops only `i` from the list. */
  lemma KeepsFrame(s: State, t: State, i: nat)
    requires Inv(s) && i < |s.nodes| == |t.nodes|
    requires forall j :: 0 <= j < |s.nodes| && j != i ==> t.nodes[j] == s.nodes[j]
    requires t.nodes[i].original == s.nodes[i].original
    requires t.nodes[i].priority == s.nodes[i].priority
      || (s.nodes[i].priority == 0 && t.nodes[i].priority == |s.nodes| && i !in t.listed)
    requires t.nodes[i].priority > 0 && t.nodes[i].successes > 0 ==>
      s.nodes[i].priority > 0 && t.nodes[i].successes <= s.nodes[i].successes
    requires t.phase == s.phase && t.seen == s.seen
    requires Distinct(t.listed) && forall j :: j in t.listed ==> j in s.listed
    ensures Inv(t)
  {
    assert forall j :: InDomain(s.nodes, j) ==> InDomain(t.nodes, j);
    assert forall j :: IsBackup(s.nodes, j) ==> IsBackup(t.nodes, j);
    assert forall j :: StandIn(t.nodes, j) ==> StandIn(s.nodes, j);
    assert forall j :: ListedPrimary(t.nodes, t.listed, j) ==> ListedPrimary(s.nodes, s.listed, j);
    assert forall j :: j in t.listed ==> Routable(s.nodes, s.seen, j) && Routable(t.nodes, t.seen, j);
  }

  lemma CollectKeeps(s: State, i: nat, ok: bool)
    requires Inv(s) && Enabled(s, Verdict(i, ok))
    ensures Inv(Collect(s, i, ok))
  {
    var t := Collect(s, i, ok);
    assert IsBackup(s.nodes, i);
    assert forall j :: InDomain(s.nodes, j) ==> InDomain(t.nodes, j);
    assert forall j :: IsBackup(s.nodes, j) ==> IsBackup(t.nodes, j);
    assert forall j :: StandIn(t.nodes, j) ==> StandIn(s.nodes, j);
    assert forall j :: ListedPrimary(t.nodes, t.listed, j) ==> ListedPrimary(s.nodes, s.listed, j);
    assert forall j :: j in t.listed ==> Routable(s.nodes, s.seen, j) && Routable(t.nodes, t.seen, j);
    assert forall j :: j in t.phase.healthy ==> j in s.phase.healthy || j == i;
  }

  lemma StepKeeps(cfg: Config, s: State, e: Event)
    requires Inv(s)
    ensures Inv(Step(cfg, s, e))
  {
    if Enabled(s, e) {
      match e
      case ServerError(i) => FailKeeps(cfg, s, i);
      case DialFailed(i) => FailKeeps(cfg, s, i);
      case Attempted(i) => KeepsFrame(s, Send(s, i), i);
      case Upgraded(i) => KeepsFrame(s, Send(s, i), i);
      case Answered(i) => KeepsFrame(s, Answer(s, i), i);
      case RoundBegan =>
      case Verdict(i, ok) => CollectKeeps(s, i, ok);
      case RoundCommitted =>
        CommitKeepsNodes(cfg, s);
        CommitKeepsList(cfg, s);
        CommitKeepsOneListed(cfg, s);
    }
  }
}
