/**
 Safety of the failover machine over every run, with request events and health rounds
 interleaved in any way.
 */
module FailoverRuns {
  import opened FailoverModel
  import opened FailoverInvariants

  lemma StartedInv(s: State)
    requires Started(s)
    ensures Inv(s)
  {
    OriginalIsFirst(s.nodes);
    assert forall i: nat :: i < |s.nodes| ==> s.nodes[i].priority == s.nodes[i].original;
    forall i: nat, j: nat | ListedPrimary(s.nodes, s.listed, i) && ListedPrimary(s.nodes, s.listed, j) ensures i == j {
      assert s.nodes[i].original == 0 && s.nodes[j].original == 0;
    }
  }

  lemma {:induction false} RunKeeps(cfg: Config, s: State, es: seq<Event>)
    requires Inv(s)
    ensures Inv(Run(cfg, s, es))
  {
    if es != [] {
      RunKeeps(cfg, s, es[..|es| - 1]);
      StepKeeps(cfg, Run(cfg, s, es[..|es| - 1]), es[|es| - 1]);
    }
  }

  lemma ReachableInv(cfg: Config, s: State, es: seq<Event>)
    requires Started(s)
    ensures Inv(Run(cfg, s, es))
  {
    StartedInv(s);
    RunKeeps(cfg, s, es);
  }

  lemma {:induction false} NodesStay(cfg: Config, s: State, es: seq<Event>)
    ensures |Run(cfg, s, es).nodes| == |s.nodes|
    ensures forall i :: 0 <= i < |s.nodes| ==> Run(cfg, s, es).nodes[i].original == s.nodes[i].original
    ensures s.seen <= Run(cfg, s, es).seen
  {
    if es != [] {
      NodesStay(cfg, s, es[..|es| - 1]);
      StepNodesStay(cfg, Run(cfg, s, es[..|es| - 1]), es[|es| - 1]);
    }
  }

  lemma StepNodesStay(cfg: Config, s: State, e: Event)
    ensures |Step(cfg, s, e).nodes| == |s.nodes|
    ensures forall i :: 0 <= i < |s.nodes| ==> Step(cfg, s, e).nodes[i].original == s.nodes[i].original
    ensures s.seen <= Step(cfg, s, e).seen
  {
    if e.RoundCommitted? && Enabled(s, e) {
      var restored := AfterRestore(AfterFailback(cfg, s.nodes, s.phase.healthy), s.phase.healthy);
      assert forall i :: 0 <= i < |s.nodes| ==> restored[i].original == s.nodes[i].original;
    }
  }

  /** In every reachable state the routing list is a duplicate-free list of nodes, every
      priority is 0, the configured one or the number of nodes, and no displaced node is listed. */
  lemma RoutingListSafe(cfg: Config, s: State, es: seq<Event>, t: State)
    requires Reached(cfg, s, es, t)
    ensures
      && |t.nodes| == |s.nodes|
      && (forall a, b :: 0 <= a < b < |t.listed| ==> t.listed[a] != t.listed[b])
      && (forall i :: i in t.listed ==> i < |t.nodes|)
      && (forall i :: 0 <= i < |t.nodes| ==>
            && t.nodes[i].priority in {0, s.nodes[i].original, |t.nodes|}
            && (t.nodes[i].priority !in {0, s.nodes[i].original} ==> i !in t.listed))
  {
    ReachableInv(cfg, s, es);
    NodesStay(cfg, s, es);
    forall i: nat | i < |t.nodes| ensures t.nodes[i].priority in {0, s.nodes[i].original, |t.nodes|} {
      assert InDomain(t.nodes, i);
    }
    assert forall i :: i in t.listed ==> Routable(t.nodes, t.seen, i);
  }

  /** At most one node of the routing list is primary, and at most one node stands in for
      the configured primary, for every failback threshold. */
  lemma OnePrimaryRouted(cfg: Config, s: State, es: seq<Event>, t: State, i: nat, j: nat)
    requires Reached(cfg, s, es, t)
    requires
      && i < |t.nodes| && j < |t.nodes|
      && t.nodes[i].priority == 0 && t.nodes[j].priority == 0
      && ((i in t.listed && j in t.listed) || (t.nodes[i].original != 0 && t.nodes[j].original != 0))
    ensures i == j
  {
    ReachableInv(cfg, s, es);
    if i in t.listed && j in t.listed {
      assert ListedPrimary(t.nodes, t.listed, i) && ListedPrimary(t.nodes, t.listed, j);
    } else {
      assert StandIn(t.nodes, i) && StandIn(t.nodes, j);
    }
  }

  /** A handler's snapshot of the routing list stays usable whatever happens afterwards. */
  lemma SnapshotStaysUsable(cfg: Config, s: State, es: seq<Event>, later: seq<Event>, i: nat)
    requires Started(s) && i in Run(cfg, s, es).listed
    ensures Enabled(Run(cfg, s, es + later), Attempted(i)) && Enabled(Run(cfg, s, es + later), ServerError(i))
  {
    ReachableInv(cfg, s, es);
    var t := Run(cfg, s, es);
    assert Routable(t.nodes, t.seen, i);
    RunConcat(cfg, s, es, later);
    NodesStay(cfg, t, later);
  }

  // ---------------------------------------------------------------- demotion

  lemma {:induction false} WithoutAbsent(l: seq<nat>, i: nat)
    requires i !in l
    ensures Without(l, i) == l
  {
    if l != [] {
      WithoutAbsent(l[..|l| - 1], i);
    }
  }

  lemma {:induction false} WithoutCuts(l: seq<nat>, k: nat)
    requires k < |l| && Distinct(l)
    ensures Without(l, l[k]) == l[..k] + l[k + 1..]
  {
    var p, last := l[..|l| - 1], l[|l| - 1];
    if k == |p| {
      WithoutAbsent(p, last);
    } else {
      WithoutCuts(p, k);
      assert p[..k] == l[..k];
      assert l[k + 1..] == p[k + 1..] + [last];
    }
  }

  /** A failed request or dial in any reachable state. It counts on the node alone. A node at
      priority 0 whose errors thereby reach the threshold gets the number of nodes as its priority
      and leaves the routing list, in which all others keep their order; in every other case no
      priority and no routing changes. */
  lemma FailureEffect(cfg: Config, s: State, es: seq<Event>, t: State, e: Event, i: nat)
    requires Reached(cfg, s, es, t) && (e == ServerError(i) || e == DialFailed(i)) && Enabled(t, e)
    ensures var u := Step(cfg, t, e);
      && |u.nodes| == |t.nodes| && u.phase == t.phase && u.seen == t.seen
      && (forall j :: 0 <= j < |t.nodes| && j != i ==> u.nodes[j] == t.nodes[j])
      && u.nodes[i].errors == t.nodes[i].errors + 1 && u.nodes[i].failures == t.nodes[i].failures + 1
      && u.nodes[i].successes == 0 && u.nodes[i].requests == t.nodes[i].requests
      && u.nodes[i].original == t.nodes[i].original
      && if t.nodes[i].priority == 0 && t.nodes[i].errors + 1 >= cfg.errorThreshold then
           && u.nodes[i].priority == |t.nodes| && i !in u.listed
           && (i !in t.listed ==> u.listed == t.listed)
           && forall k :: 0 <= k < |t.listed| && t.listed[k] == i ==> u.listed == t.listed[..k] + t.listed[k + 1..]
         else u.nodes[i].priority == t.nodes[i].priority && u.listed == t.listed
  {
    ReachableInv(cfg, s, es);
    if i !in t.listed {
      WithoutAbsent(t.listed, i);
    }
    forall k | 0 <= k < |t.listed| && t.listed[k] == i
      ensures Without(t.listed, i) == t.listed[..k] + t.listed[k + 1..]
    {
      WithoutCuts(t.listed, k);
    }
  }

  /** Node `i` is a backup that is neither listed nor has passed a check in the running round. */
  ghost predicate Waiting(s: State, i: nat) {
    i < |s.nodes| && s.nodes[i].priority > 0 && i !in s.listed && !Collected(s, i)
  }

  lemma StepStaysWaiting(cfg: Config, s: State, e: Event, i: nat)
    requires Inv(s) && Waiting(s, i) && e != Verdict(i, true)
    ensures Waiting(Step(cfg, s, e), i)
  {
    if e.RoundCommitted? && Enabled(s, e) {
      CommittedState(cfg, s);
    }
  }

  lemma {:induction false} StaysWaiting(cfg: Config, s: State, es: seq<Event>, i: nat)
    requires Inv(s) && Waiting(s, i) && forall e :: e in es ==> e != Verdict(i, true)
    ensures Waiting(Run(cfg, s, es), i)
  {
    if es != [] {
      var last := |es| - 1;
      assert es[last] in es && forall e :: e in es[..last] ==> e in es;
      StaysWaiting(cfg, s, es[..last], i);
      RunKeeps(cfg, s, es[..last]);
      StepStaysWaiting(cfg, Run(cfg, s, es[..last]), es[last], i);
    }
  }

  /** A demoted node is a backup and out of the routing list over every continuation in which it
      does not pass a check. */
  lemma DemotedStaysUnlisted(cfg: Config, s: State, es: seq<Event>, t: State, e: Event, i: nat, later: seq<Event>)
    requires Reached(cfg, s, es, t) && (e == ServerError(i) || e == DialFailed(i)) && Enabled(t, e)
    requires t.nodes[i].priority == 0 && t.nodes[i].errors + 1 >= cfg.errorThreshold
    requires forall l :: l in later ==> l != Verdict(i, true)
    ensures var u := Run(cfg, Step(cfg, t, e), later);
      i < |u.nodes| && u.nodes[i].priority > 0 && i !in u.listed
  {
    ReachableInv(cfg, s, es);
    FailureEffect(cfg, s, es, t, e, i);
    StepKeeps(cfg, t, e);
    assert Collected(t, i) ==> IsBackup(t.nodes, i);
    StaysWaiting(cfg, Step(cfg, t, e), later, i);
  }

  // ---------------------------------------------------------------- the commit of a round

  lemma YieldsIff(cfg: Config, s: State)
    requires Inv(s) && Enabled(s, RoundCommitted)
    ensures Returns(s.nodes, s.phase.healthy) <==> 0 in s.phase.healthy && s.nodes[0].original == 0
    ensures Yields(cfg, s.nodes, s.phase.healthy) <==>
      && 0 in s.phase.healthy && s.nodes[0].original == 0
      && FirstPrimary(s.nodes) < |s.nodes| && s.nodes[0].successes >= cfg.failbackChecks
  {
    var h := s.phase.healthy;
    OriginalIsFirst(s.nodes);
    assert forall k :: 0 <= k < |h| && s.nodes[h[k]].original == 0 ==> h[k] == 0 && h[k] in h;
    if 0 in h {
      var k :| 0 <= k < |h| && h[k] == 0;
    }
  }

  /** The commit of a round in any reachable state, `cp` being the first node at priority 0 or the
      number of nodes. The healthy nodes get their configured priority back. With failback the
      configured primary starts with a clean counter and `cp` gets its configured priority back.
      Without any primary, and without the configured one among the healthy, the healthy node
      configured highest gets priority 0 and a clean counter. Nothing else changes. The new list is
      `cp`, if it was listed and the configured primary does not return, and then the healthy nodes. */
  lemma CommitIs(cfg: Config, s: State, es: seq<Event>, t: State, cp: nat, i: nat)
    requires Reached(cfg, s, es, t) && Enabled(t, RoundCommitted) && i < |t.nodes|
    requires cp <= |t.nodes| && (cp < |t.nodes| ==> t.nodes[cp].priority == 0)
    requires forall j :: 0 <= j < cp ==> t.nodes[j].priority > 0
    ensures var u, h := Step(cfg, t, RoundCommitted), t.phase.healthy;
      var comesBack := 0 in h && t.nodes[0].original == 0;
      var failsBack := comesBack && cp < |t.nodes| && t.nodes[0].successes >= cfg.failbackChecks;
      var promoted := !comesBack && cp == |t.nodes| && i in h
        && forall k :: 0 <= k < |h| ==> t.nodes[i].original <= t.nodes[h[k]].original;
      && |u.nodes| == |t.nodes| && u.phase == Idle
      && u.nodes[i] == t.nodes[i].(
           priority := if promoted then 0
                       else if i in h || (failsBack && i == cp) then t.nodes[i].original
                       else t.nodes[i].priority,
           errors := if promoted || (failsBack && i == 0) then 0 else t.nodes[i].errors)
      && u.listed == (if cp < |t.nodes| && cp in t.listed && !comesBack then [cp] else []) + h
  {
    ReachableInv(cfg, s, es);
    CommittedState(cfg, t);
    YieldsIff(cfg, t);
    assert FirstPrimary(t.nodes) == cp;
    assert cp in t.listed ==> Routable(t.nodes, t.seen, cp);
    OriginalIsFirst(t.nodes);
    if i in t.phase.healthy {
      HealthyAreBackups(t.nodes, t.phase.healthy, i);
    }
    if Returns(t.nodes, t.phase.healthy) {
      ReturnIsHighest(t.nodes, t.phase.healthy);
    }
  }

  // ---------------------------------------------------------------- the failback threshold

  /** With a threshold of two or more the failback branch is never taken. */
  lemma FailbackNeverFires(cfg: Config, s: State, es: seq<Event>, t: State)
    requires Reached(cfg, s, es, t) && cfg.failbackChecks >= 2
    requires Enabled(t, RoundCommitted)
    ensures !FailsBack(cfg, t.nodes, t.phase.healthy)
  {
    ReachableInv(cfg, s, es);
    NeverYields(cfg, t);
  }

  lemma NeverYields(cfg: Config, s: State)
    requires Inv(s) && cfg.failbackChecks >= 2 && Enabled(s, RoundCommitted)
    ensures !FailsBack(cfg, s.nodes, s.phase.healthy) && !Yields(cfg, s.nodes, s.phase.healthy)
  {
    var h := s.phase.healthy;
    OriginalIsFirst(s.nodes);
    forall k | 0 <= k < |h| && s.nodes[h[k]].original == 0 ensures s.nodes[h[k]].successes < cfg.failbackChecks {
      assert h[k] == 0 && h[k] in h;
      assert IsBackup(s.nodes, 0);
    }
  }

  /** The configured primary is back at priority 0 after its first healthy check, whatever
      the threshold says. */
  lemma FirstHealthyCheckRestores(cfg: Config, s: State, es: seq<Event>, t: State)
    requires Reached(cfg, s, es, t)
    requires Enabled(t, RoundCommitted) && 0 in t.phase.healthy && t.nodes[0].original == 0
    ensures Step(cfg, t, RoundCommitted).nodes[0].priority == 0 && t.nodes[0].successes <= 1
  {
    ReachableInv(cfg, s, es);
    CommittedState(cfg, t);
    assert IsBackup(t.nodes, 0);
  }

  ghost predicate Lost(s: State, k: nat) {
    StandIn(s.nodes, k) && k !in s.listed
  }

  lemma StepStaysLost(cfg: Config, s: State, e: Event, k: nat)
    requires Inv(s) && Lost(s, k) && cfg.failbackChecks >= 2
    requires IsFailure(e) ==> e.i != k
    ensures Lost(Step(cfg, s, e), k)
  {
    if e.RoundCommitted? && Enabled(s, e) {
      CommittedState(cfg, s);
      NeverYields(cfg, s);
      assert k in s.phase.healthy ==> IsBackup(s.nodes, k);
    }
  }

  lemma {:induction false} StaysLost(cfg: Config, s: State, es: seq<Event>, k: nat)
    requires Inv(s) && Lost(s, k) && cfg.failbackChecks >= 2
    requires forall e :: e in es && IsFailure(e) ==> e.i != k
    ensures Lost(Run(cfg, s, es), k)
  {
    if es != [] {
      var last := |es| - 1;
      StaysLost(cfg, s, es[..last], k);
      RunKeeps(cfg, s, es[..last]);
      StepStaysLost(cfg, Run(cfg, s, es[..last]), es[last], k);
    }
  }

  /** With a threshold of two or more, the backup that stood in for the configured primary is
      stuck at priority 0 and out of the routing list from the round that brings the configured
      primary back, until a request through an old snapshot fails on it. */
  lemma StandInIsLost(cfg: Config, s: State, es: seq<Event>, later: seq<Event>, k: nat)
    requires Started(s) && cfg.failbackChecks >= 2
    requires var t := Run(cfg, s, es);
      && Enabled(t, RoundCommitted) && 0 in t.phase.healthy && t.nodes[0].original == 0
      && k < |t.nodes| && t.nodes[k].original != 0 && t.nodes[k].priority == 0
    requires forall e :: e in later && IsFailure(e) ==> e.i != k
    ensures var u := Run(cfg, s, es + [RoundCommitted] + later);
      && k < |u.nodes| && u.nodes[k].priority == 0
      && k !in u.listed
  {
    ReachableInv(cfg, s, es);
    var t := Run(cfg, s, es);
    var h := t.phase.healthy;
    assert StandIn(t.nodes, k);
    CommittedState(cfg, t);
    NeverYields(cfg, t);
    assert Returns(t.nodes, h) by {
      var j :| 0 <= j < |h| && h[j] == 0;
      assert t.nodes[h[j]].original == 0;
    }
    assert k in h ==> IsBackup(t.nodes, k);
    var c := Step(cfg, t, RoundCommitted);
    assert Lost(c, k);
    StepKeeps(cfg, t, RoundCommitted);
    StaysLost(cfg, c, later, k);
    assert (es + [RoundCommitted])[..|es|] == es;
    assert Run(cfg, s, es + [RoundCommitted]) == c;
    RunConcat(cfg, s, es + [RoundCommitted], later);
  }

  /** The configured primary is displaced and has not passed a check, and its stand-in is lost. */
  ghost predicate Blocked(s: State, k: nat) {
    && Lost(s, k)
    && s.nodes[0].original == 0 && s.nodes[0].priority > 0
    && !Collected(s, 0)
  }

  lemma BlockedListsNone(s: State, k: nat)
    requires Inv(s) && Blocked(s, k)
    ensures !ListsPrimary(s)
  {
    OriginalIsFirst(s.nodes);
    forall i ensures !ListedPrimary(s.nodes, s.listed, i) {
      if ListedPrimary(s.nodes, s.listed, i) {
        assert StandIn(s.nodes, i) && StandIn(s.nodes, k);
      }
    }
  }

  lemma StepStaysBlocked(cfg: Config, s: State, e: Event, k: nat)
    requires Inv(s) && Blocked(s, k) && e != Verdict(0, true)
    requires IsFailure(e) ==> e.i != k
    ensures Blocked(Step(cfg, s, e), k)
  {
    if e.RoundCommitted? && Enabled(s, e) {
      CommittedState(cfg, s);
      var h := s.phase.healthy;
      OriginalIsFirst(s.nodes);
      assert !Returns(s.nodes, h) by {
        assert forall j :: 0 <= j < |h| ==> h[j] in h;
      }
      assert k in h ==> IsBackup(s.nodes, k);
    }
  }

  /** While a lost stand-in keeps priority 0, no node is promoted in place of a displaced
      configured primary, so the routing list has no primary until the configured one passes a
      check or a request through an old snapshot fails on the stand-in. */
  lemma {:induction false} NoPromotionWhileBlocked(cfg: Config, s: State, es: seq<Event>, k: nat)
    requires Inv(s) && Blocked(s, k)
    requires forall e :: e in es ==> e != Verdict(0, true) && (IsFailure(e) ==> e.i != k)
    ensures Blocked(Run(cfg, s, es), k) && !ListsPrimary(Run(cfg, s, es))
  {
    if es == [] {
      BlockedListsNone(s, k);
    } else {
      var last := |es| - 1;
      assert es[last] in es;
      NoPromotionWhileBlocked(cfg, s, es[..last], k);
      RunKeeps(cfg, s, es[..last]);
      RunKeeps(cfg, s, es);
      StepStaysBlocked(cfg, Run(cfg, s, es[..last]), es[last], k);
      BlockedListsNone(Run(cfg, s, es), k);
    }
  }

  // ---------------------------------------------------------------- a primary that is down at startup

  ghost predicate ShutOut(s: State) {
    && |s.nodes| > 0
    && s.nodes[0] == Node(0, 0, 0, 0, 0, 0)
    && 0 !in s.seen
    && 0 !in s.listed
  }

  lemma StepStaysShutOut(cfg: Config, s: State, e: Event)
    requires Inv(s) && ShutOut(s)
    ensures ShutOut(Step(cfg, s, e))
    ensures forall i: nat :: i < |s.nodes| && s.nodes[i].priority > 0 ==> Step(cfg, s, e).nodes[i].priority > 0
  {
    if Enabled(s, e) {
      match e
      case RoundCommitted =>
        CommittedState(cfg, s);
        var h := s.phase.healthy;
        OriginalIsFirst(s.nodes);
        assert !IsBackup(s.nodes, 0);
        assert !Returns(s.nodes, h) by {
          assert forall k :: 0 <= k < |h| ==> h[k] in h;
        }
        assert FirstPrimary(s.nodes) == 0;
      case Verdict(i, ok) =>
        assert IsBackup(s.nodes, i);
      case _ =>
    }
  }

  /** A configured primary that fails the startup check keeps priority 0 for ever: it is never
      checked, never listed, never sent a request, and no backup is promoted in its place. */
  lemma {:induction false} PrimaryDownAtStartup(cfg: Config, s: State, es: seq<Event>)
    requires Started(s) && |s.nodes| > 0 && s.nodes[0].original == 0 && 0 !in s.listed
    ensures var t := Run(cfg, s, es);
      && |t.nodes| == |s.nodes|
      && t.nodes[0] == s.nodes[0]
      && 0 !in t.listed && 0 !in t.seen
      && forall i :: 0 < i < |t.nodes| ==> t.nodes[i].priority > 0
  {
    ReachableInv(cfg, s, es);
    if es == [] {
      assert forall i :: 0 < i < |s.nodes| ==> s.nodes[0].original < s.nodes[i].original;
    } else {
      var last := |es| - 1;
      PrimaryDownAtStartup(cfg, s, es[..last]);
      ReachableInv(cfg, s, es[..last]);
      StepStaysShutOut(cfg, Run(cfg, s, es[..last]), es[last]);
    }
  }
}
