/**
 The load balancer: its methods step the failover machine.
 */
module LoadBalancing {
  import opened FailoverModel
  import opened FailoverRuns
  import opened Rounds
  import opened BeaconNodes
  import opened Requests
  import opened Validation
  import EndpointTable
  import Endpoints

  datatype HealthCheckResult = HealthCheckResult(node: BeaconNode, isHealthy: bool)

  /** A configured node; `parses` says whether its URL is well formed. */
  datatype NodeConfig = NodeConfig(name: string, parses: bool)

  /** What the client gets; at most one response is written. */
  datatype Reply =
    | NoReply
    | Forbidden
    | ServiceUnavailable
    | GatewayTimeout
    | BadGateway
    | Copied(node: BeaconNode, status: int)
    | Proxied(node: BeaconNode)

  /** A state before the startup health check. */
  predicate Unstarted(s: State) {
    && Ordered(s.nodes)
    && (forall i :: 0 <= i < |s.nodes| ==>
          s.nodes[i] == Node(s.nodes[i].original, s.nodes[i].original, 0, 0, 0, 0))
    && s.listed == [] && s.phase == Idle && s.seen == {}
  }

  class LoadBalancer {
    const nodes: seq<BeaconNode>
    const config: Config
    const maxRetries: nat
    const validator: BeaconEndpointValidator
    var healthyNodes: array<BeaconNode>
    ghost var state: State

    ghost function Views(): (v: seq<Node>)
      reads nodes
      ensures |v| == |nodes|
      ensures forall i :: 0 <= i < |nodes| ==> v[i] == nodes[i].View()
    {
      seq(|nodes|, i requires 0 <= i < |nodes| reads nodes => nodes[i].View())
    }

    ghost predicate NodesDistinct() {
      && (forall i, j :: 0 <= i < j < |nodes| ==> nodes[i] != nodes[j])
      && (forall i, j :: 0 <= i < j < |nodes| ==> nodes[i].name != nodes[j].name)
    }

    /** The nodes `l` are those at positions `at`. */
    ghost predicate Refer(l: seq<BeaconNode>, at: seq<nat>) {
      |l| == |at| && forall k :: 0 <= k < |at| ==> at[k] < |nodes| && l[k] == nodes[at[k]]
    }

    ghost predicate Valid()
      reads this, nodes, healthyNodes
    {
      && NodesDistinct()
      && |state.nodes| == |nodes| && (forall i :: 0 <= i < |nodes| ==> nodes[i].View() == state.nodes[i])
      && Refer(healthyNodes[..], state.listed)
      && (forall i :: i in state.listed ==> i in state.seen)
    }

    /** The routing list is a slice no one writes to once it has been handed out. */
    method GetHealthyNodes() returns (snapshot: array<BeaconNode>)
      ensures snapshot == healthyNodes
    {
      snapshot := healthyNodes;
    }

    /** Drops `node` from the routing list by name, into a new slice. */
    method Unlist(node: BeaconNode, ghost at: nat)
      requires NodesDistinct() && at < |nodes| && nodes[at] == node
      requires Refer(healthyNodes[..], state.listed)
      modifies this`healthyNodes
      ensures fresh(healthyNodes)
      ensures Refer(healthyNodes[..], Without(state.listed, at))
    {
      var updated: seq<BeaconNode> := [];
      for k := 0 to healthyNodes.Length
        invariant Refer(updated, Without(state.listed[..k], at))
      {
        var n := healthyNodes[k];
        assert n == healthyNodes[..][k] == nodes[state.listed[k]];
        assert state.listed[..k + 1][..k] == state.listed[..k];
        if n.name != node.name {
          updated := updated + [n];
        }
      }
      assert state.listed[..|state.listed|] == state.listed;
      Install(updated, Without(state.listed, at));
    }

    /** A failed request or dial: count it and demote a primary that has reached the threshold. */
    method CountFailure(node: BeaconNode, ghost at: nat)
      requires Valid() && at < |nodes| && nodes[at] == node
      modifies this, nodes
      ensures Valid() && state == Fail(config, old(state), at)
      ensures fresh(healthyNodes) || healthyNodes == old(healthyNodes)
    {
      node.IncrementError();
      var consecutiveErrors := node.consecutiveErrors;
      if node.IsPrimary() && consecutiveErrors >= config.errorThreshold {
        var maxPriority := |nodes|;
        node.SetPriority(maxPriority);
        Unlist(node, at);
      }
      state := Fail(config, state, at);
      assert state.nodes == Views();
    }

    // -------------------------------------------------------------- health rounds

    /** The backups, each once and in configuration order. */
    method CollectBackups() returns (backupNodes: seq<BeaconNode>)
      ensures Refer(backupNodes, BackupsUpTo(Views(), |nodes|))
    {
      ghost var views := Views();
      backupNodes := [];
      for i := 0 to |nodes|
        invariant Refer(backupNodes, BackupsUpTo(views, i))
      {
        if nodes[i].IsBackup() {
          ReferConcat(backupNodes, BackupsUpTo(views, i), [nodes[i]], [i]);
          backupNodes := backupNodes + [nodes[i]];
        }
      }
    }

    /** Collects the backups to check; without any the round is over. */
    method BeginRound() returns (backupNodes: seq<BeaconNode>)
      requires Valid() && state.phase.Idle?
      modifies this`state
      ensures Valid() && state == Step(config, old(state), RoundBegan)
      ensures Refer(backupNodes, BackupsUpTo(state.nodes, |nodes|))
      ensures backupNodes == [] <==> state.phase.Idle?
    {
      assert state.nodes == Views();
      backupNodes := CollectBackups();
      NoneToCheck(state.nodes);
      state := Step(config, state, RoundBegan);
    }

    /** One result from the channel. */
    method RecordResult(result: HealthCheckResult, healthy: seq<BeaconNode>, ghost at: nat)
      returns (newHealthy: seq<BeaconNode>)
      requires Valid() && Enabled(state, Verdict(at, result.isHealthy)) && nodes[at] == result.node
      requires Refer(healthy, state.phase.healthy)
      modifies this`state, nodes
      ensures Valid() && state == Step(config, old(state), Verdict(at, result.isHealthy))
      ensures Refer(newHealthy, state.phase.healthy)
    {
      if result.isHealthy {
        result.node.IncrementSuccess();
        result.node.ResetErrors();
        newHealthy := healthy + [result.node];
      } else {
        result.node.ResetSuccesses();
        newHealthy := healthy;
      }
      state := Step(config, state, Verdict(at, result.isHealthy));
      assert state.nodes == Views();
    }

    /** The first node of `l` configured at priority 0. */
    method FindOriginal(l: seq<BeaconNode>, ghost at: seq<nat>) returns (found: BeaconNode?)
      requires Refer(l, at)
      ensures InRange(at, |nodes|)
      ensures var p := OriginalIn(Views(), at); found == if p < |at| then nodes[at[p]] else null
    {
      found := null;
      var k := 0;
      while k < |l|
        invariant 0 <= k <= |l|
        invariant forall q :: 0 <= q < k ==> l[q].originalPriority != 0
      {
        if l[k].originalPriority == 0 {
          assert OriginalIn(Views(), at) == k;
          return l[k];
        }
        k := k + 1;
      }
    }

    /** The first node at priority 0. */
    method FindPrimary() returns (found: BeaconNode?)
      ensures var p := FirstPrimary(Views()); found == if p < |nodes| then nodes[p] else null
    {
      found := null;
      for i := 0 to |nodes|
        invariant forall j :: 0 <= j < i ==> nodes[j].priority > 0
      {
        if nodes[i].IsPrimary() {
          assert FirstPrimary(Views()) == i;
          return nodes[i];
        }
      }
    }

    /** Makes `node`, at position `i`, primary with a clean error counter. */
    method MakePrimary(node: BeaconNode, ghost i: nat)
      requires NodesDistinct() && i < |nodes| && nodes[i] == node
      modifies node
      ensures Views() == old(Views())[i := old(Views())[i].(priority := 0, errors := 0)]
    {
      node.SetPriority(0);
      node.ResetErrors();
    }

    /** Gives the configured primary its place back once it has passed enough checks. */
    method Failback(l: seq<BeaconNode>, ghost at: seq<nat>)
      requires NodesDistinct() && Refer(l, at)
      modifies nodes
      ensures InRange(at, |nodes|) && Views() == AfterFailback(config, old(Views()), at)
    {
      ghost var before := Views();
      var originalPrimary := FindOriginal(l, at);
      var shouldFailback := false;
      if originalPrimary != null {
        shouldFailback := originalPrimary.consecutiveSuccesses >= config.failbackChecks;
      }
      var currentPrimary := FindPrimary();
      ghost var op, cp := OriginalIn(before, at), FirstPrimary(before);
      if shouldFailback && currentPrimary != null && currentPrimary.name != originalPrimary.name {
        assert nodes[at[op]] == originalPrimary && nodes[cp] == currentPrimary;
        MakePrimary(originalPrimary, at[op]);
        currentPrimary.SetPriority(currentPrimary.originalPriority);
        assert Views() == AfterFailback(config, before, at);
      } else {
        assert op < |at| && cp < |nodes| && cp != at[op] ==> nodes[cp].name != nodes[at[op]].name;
        assert Views() == before;
      }
    }

    /** Restores every healthy node to its configured priority. */
    method Restore(l: seq<BeaconNode>, ghost at: seq<nat>)
      requires NodesDistinct() && Refer(l, at)
      modifies nodes
      ensures Views() == AfterRestore(old(Views()), at)
    {
      ghost var before := Views();
      for k := 0 to |l|
        invariant Views() == AfterRestore(before, at[..k])
      {
        var node := l[k];
        ghost var here := Views();
        assert here[at[k]] == node.View();
        if node.priority != node.originalPriority {
          node.SetPriority(node.originalPriority);
        }
        assert Views() == here[at[k] := here[at[k]].(priority := here[at[k]].original)];
        assert Views() == AfterRestore(before, at[..k + 1]) by {
          assert forall i :: i in at[..k + 1] <==> i in at[..k] || i == at[k];
        }
      }
      assert at[..|at|] == at;
    }

    /** The new routing list starts with the current primary when the old one had it. */
    method KeepPrimary(ghost listed: seq<nat>)
      returns (currentPrimary: BeaconNode?, kept: seq<BeaconNode>)
      requires NodesDistinct() && Refer(healthyNodes[..], listed)
      ensures var p := FirstPrimary(Views()); currentPrimary == if p < |nodes| then nodes[p] else null
      ensures Refer(kept, Kept(Views(), listed))
    {
      kept := [];
      currentPrimary := FindPrimary();
      if currentPrimary != null {
        ghost var p := FirstPrimary(Views());
        var k := 0;
        while k < healthyNodes.Length
          invariant 0 <= k <= healthyNodes.Length
          invariant p !in listed[..k]
        {
          assert healthyNodes[k] == healthyNodes[..][k] == nodes[listed[k]];
          if healthyNodes[k].name == currentPrimary.name {
            assert listed[k] == p;
            kept := [currentPrimary];
            break;
          }
          k := k + 1;
        }
        assert k == healthyNodes.Length ==> listed[..k] == listed;
      }
    }

    /** The first node of least positive priority. */
    method FindLeastBackup(l: seq<BeaconNode>, ghost at: seq<nat>) returns (found: BeaconNode?)
      requires Refer(l, at)
      ensures InRange(at, |nodes|)
      ensures var p := LeastBackupIn(Views(), at); found == if p < |at| then nodes[at[p]] else null
    {
      ghost var views := Views();
      found := null;
      for k := 0 to |l|
        invariant InRange(at[..k], |nodes|)
        invariant var p := LeastBackupIn(views, at[..k]); found == if p < k then nodes[at[p]] else null
      {
        LeastNext(views, at, k);
        if l[k].priority > 0 && (found == null || l[k].priority < found.priority) {
          found := l[k];
        }
      }
      assert at[..|at|] == at;
    }

    /** Promotes a healthy node when there is no primary. */
    method Promote(l: seq<BeaconNode>, ghost at: seq<nat>)
      requires NodesDistinct() && Refer(l, at) && FirstPrimary(Views()) == |nodes|
      modifies nodes
      ensures InRange(at, |nodes|) && Views() == AfterPromotion(old(Views()), at)
    {
      ghost var before := Views();
      var nodeToPromote := FindOriginal(l, at);
      if nodeToPromote == null {
        nodeToPromote := FindLeastBackup(l, at);
      }
      if nodeToPromote != null {
        assert nodeToPromote == nodes[at[Promotion(before, at)]];
        MakePrimary(nodeToPromote, at[Promotion(before, at)]);
      }
      assert Views() == AfterPromotion(before, at);
    }

    /** Failback, restoration and promotion, and the head of the new routing list. */
    method SettlePriorities(l: seq<BeaconNode>, ghost at: seq<nat>, ghost listed: seq<nat>)
      returns (kept: seq<BeaconNode>)
      requires NodesDistinct() && Refer(l, at) && Refer(healthyNodes[..], listed)
      modifies nodes
      ensures InRange(at, |nodes|)
      ensures var restored := AfterRestore(AfterFailback(config, old(Views()), at), at);
        Views() == AfterPromotion(restored, at) && Refer(kept, Kept(restored, listed))
    {
      Failback(l, at);
      Restore(l, at);
      var currentPrimary;
      currentPrimary, kept := KeepPrimary(listed);
      if currentPrimary == null && |l| > 0 {
        Promote(l, at);
      }
    }

    lemma ReferConcat(a: seq<BeaconNode>, at: seq<nat>, b: seq<BeaconNode>, bt: seq<nat>)
      requires Refer(a, at) && Refer(b, bt)
      ensures Refer(a + b, at + bt)
    {
    }

    /** Replaces the routing list by a new slice. */
    method Install(updated: seq<BeaconNode>, ghost listed: seq<nat>)
      requires Refer(updated, listed)
      modifies this`healthyNodes
      ensures fresh(healthyNodes) && Refer(healthyNodes[..], listed)
    {
      healthyNodes := new BeaconNode[|updated|](i requires 0 <= i < |updated| => updated[i]);
      assert healthyNodes[..] == updated;
    }

    /** Ends the round under the lock. */
    method CommitRound(newHealthyBackups: seq<BeaconNode>)
      requires Valid() && Enabled(state, RoundCommitted)
      requires Refer(newHealthyBackups, state.phase.healthy)
      modifies this, nodes
      ensures Valid() && state == Step(config, old(state), RoundCommitted)
      ensures fresh(healthyNodes)
    {
      ghost var h, committed := state.phase.healthy, Commit(config, state);
      ghost var head := Kept(AfterRestore(AfterFailback(config, state.nodes, h), h), state.listed);
      assert state.nodes == Views();
      var kept := SettlePriorities(newHealthyBackups, h, state.listed);
      assert Views() == committed.nodes;
      ReferConcat(kept, head, newHealthyBackups, h);
      Install(kept + newHealthyBackups, committed.listed);
      state := committed;
    }

    /** Takes the results from the channel until it closes. */
    method CollectResults(results: seq<HealthCheckResult>, ghost start: State, ghost arrivals: seq<Arrival>)
      returns (newHealthyBackups: seq<BeaconNode>)
      requires Valid() && start.phase.Idle? && Backups(start.nodes) != {} && Complete(start.nodes, arrivals)
      requires state == Run(config, start, RoundPrefix(arrivals, 0)) && Delivers(results, arrivals)
      modifies this`state, nodes
      ensures Valid() && state == Run(config, start, RoundPrefix(arrivals, |arrivals|))
      ensures state.phase.Collecting? && Refer(newHealthyBackups, state.phase.healthy)
    {
      newHealthyBackups := [];
      RoundOpens(config, start, arrivals);
      for k := 0 to |results|
        invariant Valid() && state == Run(config, start, RoundPrefix(arrivals, k))
        invariant state.phase.Collecting? && Refer(newHealthyBackups, state.phase.healthy)
      {
        NextVerdict(config, start, arrivals, k);
        newHealthyBackups := RecordResult(results[k], newHealthyBackups, arrivals[k].node);
      }
    }

    /** One whole round. The results channel delivers one result for each backup. */
    method PerformHealthCheck(results: seq<HealthCheckResult>, ghost arrivals: seq<Arrival>)
      requires Valid() && state.phase.Idle? && Complete(state.nodes, arrivals)
      requires Delivers(results, arrivals)
      modifies this, nodes
      ensures Valid() && state == Run(config, old(state), RoundEvents(arrivals))
      ensures fresh(healthyNodes) || healthyNodes == old(healthyNodes)
    {
      ghost var start := state;
      var backupNodes := BeginRound();
      if |backupNodes| == 0 {
        NoBackupsNoRound(config, start, arrivals);
        return;
      }
      RoundOpens(config, start, arrivals);
      var newHealthyBackups := CollectResults(results, start, arrivals);
      RoundCloses(config, start, arrivals);
      CommitRound(newHealthyBackups);
    }

    ghost predicate Delivers(results: seq<HealthCheckResult>, arrivals: seq<Arrival>) {
      |results| == |arrivals| && forall k :: 0 <= k < |results| ==>
        arrivals[k].node < |nodes| && results[k] == HealthCheckResult(nodes[arrivals[k].node], arrivals[k].ok)
    }

    // -------------------------------------------------------------- requests

    /** A node answered with something other than a success; only server errors count. */
    method HandleNodeError(node: BeaconNode, statusCode: int, ghost at: nat)
      requires Valid() && at < |nodes| && nodes[at] == node && at in state.seen
      modifies this, nodes
      ensures Valid()
      ensures state == if statusCode >= SERVER_ERROR_MIN then Step(config, old(state), ServerError(at)) else old(state)
      ensures fresh(healthyNodes) || healthyNodes == old(healthyNodes)
    {
      if statusCode >= SERVER_ERROR_MIN {
        CountFailure(node, at);
      }
    }

    /** Sends the request to one node and records how it went. */
    method TryNode(node: BeaconNode, statusCode: int, ghost at: nat)
      requires Valid() && at < |nodes| && nodes[at] == node && at in state.seen
      modifies this, nodes
      ensures Valid() && state == Run(config, old(state), AttemptEvents(at, statusCode))
      ensures fresh(healthyNodes) || healthyNodes == old(healthyNodes)
    {
      AttemptUnfolds(config, state, at, statusCode);
      node.IncrementRequests();
      state := Send(state, at);
      assert state.nodes == Views();
      if Succeeds(statusCode) {
        node.ResetErrors();
        state := Answer(state, at);
        assert state.nodes == Views();
      } else {
        HandleNodeError(node, statusCode, at);
      }
    }

    /** Attempt `k` of a request that works on the snapshot `at`. */
    method TryNext(node: BeaconNode, ghost start: State, ghost at: seq<nat>, attempts: seq<Attempt>, k: nat)
      requires k < |at| == |attempts| && at[k] < |nodes| && node == nodes[at[k]]
      requires Valid() && at[k] in start.seen && start.seen <= state.seen
      requires state == AfterAttempts(config, start, at, attempts, k)
      modifies this, nodes
      ensures Valid() && start.seen <= state.seen
      ensures state == AfterAttempts(config, start, at, attempts, k + 1)
    {
      ghost var before := state;
      NextAttempt(config, start, at, attempts, k);
      TryNode(node, attempts[k].status, at[k]);
      NodesStay(config, before, AttemptEvents(at[k], attempts[k].status));
    }

    /** Tries the nodes of a snapshot in order, at most `maxRetries` of them, until one answers
        with a success or the time is up. `tried` nodes were tried. */
    method TryNodes(snapshot: array<BeaconNode>, attempts: seq<Attempt>, ghost at: seq<nat>)
      returns (ending: Ending, tried: nat)
      requires Valid() && |attempts| == snapshot.Length
      requires Refer(snapshot[..], at) && forall i :: i in at ==> i in state.seen
      modifies this, nodes
      ensures Valid() && Settles(attempts, maxRetries, tried)
      ensures tried <= maxRetries && tried <= |attempts|
      ensures state == AfterAttempts(config, old(state), at, attempts, tried)
      ensures ending == EndingAt(attempts, maxRetries, tried)
      ensures ending.AllFailed? ==> tried == maxRetries || tried == |attempts|
    {
      ghost var start, handed := state, snapshot[..];
      tried := 0;
      while tried < snapshot.Length
        invariant Valid() && start.seen <= state.seen
        invariant tried <= |at| && state == AfterAttempts(config, start, at, attempts, tried)
        invariant snapshot[..] == handed
        invariant tried <= maxRetries && Proceeds(attempts, tried)
      {
        SettlesOrProceeds(attempts, maxRetries, tried);
        if tried >= maxRetries {
          break;
        }
        if attempts[tried].cancelled {
          return Cancelled, tried;
        }
        if attempts[tried].exhausted {
          return OutOfTime, tried;
        }
        assert snapshot[tried] == handed[tried] == nodes[at[tried]] && at[tried] in at;
        TryNext(snapshot[tried], start, at, attempts, tried);
        tried := tried + 1;
        if Succeeds(attempts[tried - 1].status) {
          return Success, tried;
        }
      }
      SettlesOrProceeds(attempts, maxRetries, tried);
      ending := AllFailed;
    }

    /** An HTTP request served on the routing list `listed`: `tried` of its nodes were tried. */
    ghost predicate HTTPServed(before: State, attempts: seq<Attempt>, tried: nat, reply: Reply, after: State)
      requires |attempts| == |before.listed| && InRange(before.listed, |nodes|)
    {
      && Settles(attempts, maxRetries, tried)
      && after == AfterAttempts(config, before, before.listed, attempts, tried)
      && match EndingAt(attempts, maxRetries, tried)
         case Success => reply == Copied(nodes[before.listed[tried - 1]], attempts[tried - 1].status)
         case Cancelled => reply == NoReply
         case OutOfTime => reply == GatewayTimeout
         case AllFailed => reply == BadGateway
    }

    /** The client gets the answer of the last node tried exactly when some attempt within the retry
        bound is the first with a status of 200 to 399, all in time. */
    lemma HTTPReply(before: State, attempts: seq<Attempt>, tried: nat, reply: Reply, after: State)
      requires |attempts| == |before.listed| && InRange(before.listed, |nodes|)
      requires HTTPServed(before, attempts, tried, reply, after)
      ensures tried <= maxRetries && tried <= |attempts|
      ensures reply.Copied? <==>
        exists k: nat :: k < maxRetries && InTime(attempts, k) && 200 <= attempts[k].status <= 399
          && forall j :: 0 <= j < k ==> !(200 <= attempts[j].status <= 399)
      ensures reply.Copied? ==>
        && tried > 0 && 200 <= attempts[tried - 1].status <= 399
        && reply.node == nodes[before.listed[tried - 1]] && reply.status == attempts[tried - 1].status
        && forall j :: 0 <= j < tried - 1 ==> !(200 <= attempts[j].status <= 399)
      ensures reply.BadGateway? ==>
        && (tried == maxRetries || tried == |attempts|)
        && forall j :: 0 <= j < tried ==> !(200 <= attempts[j].status <= 399)
      ensures reply.NoReply? ==> tried < maxRetries && tried < |attempts| && attempts[tried].cancelled
      ensures reply.GatewayTimeout? ==>
        tried < maxRetries && tried < |attempts| && !attempts[tried].cancelled && attempts[tried].exhausted
      ensures reply.Copied? || reply.BadGateway? || reply.NoReply? || reply.GatewayTimeout?
    {
      RetryLoopDetermined(attempts, maxRetries, tried, tried);
    }

    /** An HTTP request works on a snapshot of the routing list. */
    method HandleHTTPRequest(attempts: seq<Attempt>) returns (reply: Reply, tried: nat)
      requires Valid() && |attempts| == |state.listed|
      modifies this, nodes
      ensures Valid() && HTTPServed(old(state), attempts, tried, reply, state)
      ensures tried <= maxRetries && tried <= |attempts|
      ensures reply.Copied? ==> tried > 0 && 200 <= attempts[tried - 1].status <= 399
      ensures reply.BadGateway? ==> tried == maxRetries || tried == |attempts|
    {
      var snapshot := GetHealthyNodes();
      ghost var handed := snapshot[..];
      var ending;
      ending, tried := TryNodes(snapshot, attempts, state.listed);
      match ending
      case Success =>
        assert snapshot[tried - 1] == handed[tried - 1];
        reply := Copied(snapshot[tried - 1], attempts[tried - 1].status);
      case Cancelled => reply := NoReply;
      case OutOfTime => reply := GatewayTimeout;
      case AllFailed => reply := BadGateway;
    }

    /** Dial `k` of a request that works on the snapshot `at` fails. */
    method RefuseDial(node: BeaconNode, ghost start: State, ghost at: seq<nat>, ghost k: nat)
      requires k < |at| && at[k] < |nodes| && node == nodes[at[k]]
      requires Valid() && at[k] in start.seen && start.seen <= state.seen
      requires state == AfterDials(config, start, at, k)
      modifies this, nodes
      ensures Valid() && start.seen <= state.seen
      ensures state == AfterDials(config, start, at, k + 1)
    {
      NextDial(config, start, at, k);
      CountFailure(node, at[k]);
    }

    /** Dials the nodes of a snapshot in order until one accepts. */
    method ConnectToUpstreamWebSocket(snapshot: array<BeaconNode>, dials: seq<bool>, ghost at: seq<nat>)
      returns (selected: BeaconNode?, failed: nat)
      requires Valid() && |dials| == snapshot.Length
      requires Refer(snapshot[..], at) && Members(at) <= state.seen
      modifies this, nodes
      ensures Valid() && failed <= |dials| && (forall j :: 0 <= j < failed ==> !dials[j])
      ensures state == AfterDials(config, old(state), at, failed)
      ensures if failed < |dials| then dials[failed] && selected == nodes[at[failed]] else selected == null
    {
      ghost var start, handed := state, snapshot[..];
      selected := null;
      failed := 0;
      while failed < snapshot.Length
        invariant failed <= snapshot.Length && Valid() && start.seen <= state.seen
        invariant state == AfterDials(config, start, at, failed)
        invariant snapshot[..] == handed
        invariant forall j :: 0 <= j < failed ==> !dials[j]
        invariant selected == null
      {
        assert snapshot[failed] == handed[failed] == nodes[at[failed]];
        if dials[failed] {
          return snapshot[failed], failed;
        }
        assert at[failed] in Members(at);
        RefuseDial(snapshot[failed], start, at, failed);
        failed := failed + 1;
      }
    }

    method RecordUpgrade(node: BeaconNode, ghost at: nat)
      requires Valid() && at < |nodes| && nodes[at] == node && at in state.seen
      modifies this`state, nodes
      ensures Valid() && state == Step(config, old(state), Upgraded(at))
    {
      node.IncrementRequests();
      state := Send(state, at);
      assert state.nodes == Views();
    }

    /** A WebSocket request served on the routing list: its first `failed` nodes refused. The
        request is counted exactly when the connection is established. */
    ghost predicate WebSocketServed(before: State, dials: seq<bool>, upgrades: bool, failed: nat,
                                    reply: Reply, after: State)
      requires |dials| == |before.listed| && InRange(before.listed, |nodes|)
    {
      && failed <= |dials| && (forall j :: 0 <= j < failed ==> !dials[j]) && (failed < |dials| ==> dials[failed])
      && reply == (if dials == [] then ServiceUnavailable
                   else if failed == |dials| then BadGateway
                   else if upgrades then Proxied(nodes[before.listed[failed]])
                   else NoReply)
      && after == Run(config, before, DialEvents(before.listed[..failed])
           + if reply.Proxied? then [Upgraded(before.listed[failed])] else [])
    }

    /** The reply follows from the dials: without listed nodes the service is unavailable, when all
        refuse the gateway is bad, and otherwise the connection is to the first node that accepts,
        if the client is upgraded. */
    lemma WebSocketReply(before: State, dials: seq<bool>, upgrades: bool, failed: nat, reply: Reply, after: State)
      requires |dials| == |before.listed| && InRange(before.listed, |nodes|)
      requires WebSocketServed(before, dials, upgrades, failed, reply, after)
      ensures reply.ServiceUnavailable? <==> before.listed == []
      ensures reply.BadGateway? <==> before.listed != [] && forall j :: 0 <= j < |dials| ==> !dials[j]
      ensures reply.Proxied? <==> upgrades && exists j :: 0 <= j < |dials| && dials[j]
      ensures reply.Proxied? ==>
        && failed < |dials| && dials[failed] && reply.node == nodes[before.listed[failed]]
        && forall j :: 0 <= j < failed ==> !dials[j]
      ensures reply.NoReply? <==> !upgrades && exists j :: 0 <= j < |dials| && dials[j]
    {
    }

    /** Connects upstream, upgrades the client and counts the request. */
    method ProxyWebSocket(dials: seq<bool>, upgrades: bool) returns (reply: Reply, failed: nat)
      requires Valid() && |dials| == |state.listed|
      modifies this, nodes
      ensures Valid() && WebSocketServed(old(state), dials, upgrades, failed, reply, state)
    {
      ghost var start, listed := state, state.listed;
      var snapshot := GetHealthyNodes();
      if snapshot.Length == 0 {
        assert DialEvents(listed[..0]) + [] == [];
        return ServiceUnavailable, 0;
      }
      var selected;
      selected, failed := ConnectToUpstreamWebSocket(snapshot, dials, listed);
      ghost var events := DialEvents(listed[..failed]);
      assert events + [] == events;
      if selected == null {
        return BadGateway, failed;
      }
      if !upgrades {
        return NoReply, failed;
      }
      assert listed[failed] in Members(start.listed);
      NodesStay(config, start, events);
      assert (events + [Upgraded(listed[failed])])[..|events|] == events;
      RecordUpgrade(selected, listed[failed]);
      reply := Proxied(selected);
    }

    /** A WebSocket request on a path outside the whitelist reaches no node. */
    method HandleWebSocket(path: string, dials: seq<bool>, upgrades: bool) returns (reply: Reply, failed: nat)
      requires Valid() && validator.Valid() && |dials| == |state.listed|
      modifies this, nodes
      ensures Valid()
      ensures if Endpoints.AcceptedBy(validator.patterns, path)
        then WebSocketServed(old(state), dials, upgrades, failed, reply, state)
        else reply == Forbidden && state == old(state)
    {
      var ok := validator.IsValidBeaconEndpoint(path);
      if !ok {
        return Forbidden, 0;
      }
      reply, failed := ProxyWebSocket(dials, upgrades);
    }

    /** Every request is checked against the whitelist before it reaches a node. */
    method ServeHTTP(path: string, isWebSocket: bool, attempts: seq<Attempt>, dials: seq<bool>, upgrades: bool)
      returns (reply: Reply, tried: nat)
      requires Valid() && validator.Valid() && |attempts| == |dials| == |state.listed|
      modifies this, nodes
      ensures Valid()
      ensures
        if !Endpoints.AcceptedBy(validator.patterns, path) then reply == Forbidden && state == old(state)
        else if isWebSocket then WebSocketServed(old(state), dials, upgrades, tried, reply, state)
        else HTTPServed(old(state), attempts, tried, reply, state)
    {
      var ok := validator.IsValidBeaconEndpoint(path);
      if !ok {
        return Forbidden, 0;
      }
      if isWebSocket {
        reply, tried := HandleWebSocket(path, dials, upgrades);
      } else {
        reply, tried := HandleHTTPRequest(attempts);
      }
    }

    // -------------------------------------------------------------- construction and startup

    constructor (nodes: seq<BeaconNode>, config: Config, maxRetries: nat, validator: BeaconEndpointValidator)
      ensures this.nodes == nodes && this.config == config && this.maxRetries == maxRetries
      ensures this.validator == validator
      ensures fresh(healthyNodes) && healthyNodes.Length == 0
      ensures state == State(Views(), [], Idle, {})
    {
      this.nodes, this.config, this.maxRetries, this.validator := nodes, config, maxRetries, validator;
      healthyNodes := new BeaconNode[0];
      new;
      state := State(Views(), [], Idle, {});
    }

    /** The balancer just built from the configuration. */
    ghost predicate Configured(configs: seq<NodeConfig>, config: Config, maxRetries: nat)
      reads this, nodes, healthyNodes
    {
      && this.config == config && this.maxRetries == maxRetries
      && Valid() && Unstarted(state) && Follows(nodes, configs)
    }

    /** Every configured node whose URL parses is a node of the balancer, with its position in the
        configuration as both priorities. */
    lemma ConfiguredNode(configs: seq<NodeConfig>, config: Config, maxRetries: nat, p: nat) returns (k: nat)
      requires Configured(configs, config, maxRetries) && p < |configs| && configs[p].parses
      ensures k < |nodes| && nodes[k].name == configs[p].name
      ensures nodes[k].priority == p && nodes[k].originalPriority == p
    {
      var at := Parsed(configs);
      k :| 0 <= k < |at| && at[k] == p;
      assert FollowsAt(nodes[k], configs, at[k]);
    }

    /** There are no others, and they keep the order of the configuration. */
    lemma NodeConfigured(configs: seq<NodeConfig>, config: Config, maxRetries: nat, k: nat) returns (p: nat)
      requires Configured(configs, config, maxRetries) && k < |nodes|
      ensures p < |configs| && configs[p].parses && nodes[k].name == configs[p].name
      ensures nodes[k].priority == p && nodes[k].originalPriority == p
      ensures forall j :: 0 <= j < k ==> nodes[j].originalPriority < p
    {
      p := Parsed(configs)[k];
      assert FollowsAt(nodes[k], configs, p);
      forall j | 0 <= j < k ensures nodes[j].originalPriority < p {
        assert FollowsAt(nodes[j], configs, Parsed(configs)[j]);
      }
    }

    /** Builds the balancer from the configuration. A node whose URL does not parse is left
        out; the others get their position in the configuration as priority. */
    static method Build(configs: seq<NodeConfig>, config: Config, maxRetries: nat, validator: BeaconEndpointValidator)
      returns (lb: LoadBalancer?)
      requires DistinctNames(configs)
      ensures lb == null <==> NoneParses(configs)
      ensures lb != null ==> fresh(lb) && lb.validator == validator && lb.Configured(configs, config, maxRetries)
    {
      var nodes := BuildNodes(configs);
      if |nodes| == 0 {
        return null;
      }
      assert Parsed(configs)[0] in Parsed(configs);
      FollowsOrdered(nodes, configs);
      lb := new LoadBalancer(nodes, config, maxRetries, validator);
    }

    /** Builds the balancer with the whitelist of the table. */
    static method Create(configs: seq<NodeConfig>, config: Config, maxRetries: nat) returns (lb: LoadBalancer?)
      requires DistinctNames(configs)
      ensures lb == null <==> NoneParses(configs)
      ensures lb != null ==> lb.validator.Valid() && lb.validator.patterns == EndpointTable.Patterns()
      ensures lb != null ==> fresh(lb) && lb.Configured(configs, config, maxRetries)
    {
      var validator := new BeaconEndpointValidator();
      lb := Build(configs, config, maxRetries, validator);
    }

    static method BuildNode(configs: seq<NodeConfig>, i: nat) returns (node: BeaconNode)
      requires i < |configs|
      ensures fresh(node) && FollowsAt(node, configs, i)
    {
      node := new BeaconNode(configs[i].name);
      node.SetPriority(i);
      node.originalPriority := i;
    }

    static method BuildNodes(configs: seq<NodeConfig>) returns (nodes: seq<BeaconNode>)
      ensures Follows(nodes, configs)
      ensures forall k :: 0 <= k < |nodes| ==> fresh(nodes[k])
      ensures forall j, k :: 0 <= j < k < |nodes| ==> nodes[j] != nodes[k]
    {
      nodes := [];
      for i := 0 to |configs|
        invariant FollowsList(nodes, configs, Parsed(configs[..i]))
        invariant forall k :: 0 <= k < |nodes| ==> fresh(nodes[k])
        invariant forall j, k :: 0 <= j < k < |nodes| ==> nodes[j] != nodes[k]
      {
        assert configs[..i + 1][..i] == configs[..i];
        assert Parsed(configs[..i + 1]) == Parsed(configs[..i]) + if configs[i].parses then [i] else [];
        if configs[i].parses {
          var node := BuildNode(configs, i);
          FollowsOneMore(nodes, node, configs, Parsed(configs[..i]), i);
          nodes := nodes + [node];
        }
      }
      assert configs[..|configs|] == configs;
    }

    /** Puts `n` in its place in a list ordered by priority. */
    static method InsertByPriority(l: seq<BeaconNode>, n: BeaconNode) returns (r: seq<BeaconNode>)
      requires ByPriority(l)
      ensures ByPriority(r) && multiset(r) == multiset(l) + multiset{n}
    {
      var j := |l|;
      while j > 0 && l[j - 1].priority > n.priority
        invariant 0 <= j <= |l|
        invariant forall a :: j <= a < |l| ==> l[a].priority > n.priority
      {
        j := j - 1;
      }
      assert forall a :: 0 <= a < j ==> l[a].priority <= l[j - 1].priority;
      InsertKeepsOrder(l, n, j);
      InsertedMembers(l, n, j);
      r := Inserted(l, n, j);
    }

    /** Orders nodes by priority, lowest number first. */
    static method SortByPriority(l: seq<BeaconNode>) returns (r: seq<BeaconNode>)
      ensures ByPriority(r) && multiset(r) == multiset(l)
    {
      r := [];
      for k := 0 to |l|
        invariant ByPriority(r) && multiset(r) == multiset(l[..k])
      {
        assert l[..k + 1] == l[..k] + [l[k]];
        r := InsertByPriority(r, l[k]);
      }
      assert l[..|l|] == l;
    }

    /** The nodes that passed their check, in arrival order. */
    method CollectHealthy(results: seq<HealthCheckResult>, ghost arrivals: seq<Arrival>)
      returns (healthy: seq<BeaconNode>)
      requires Delivers(results, arrivals)
      ensures Refer(healthy, Healthy(arrivals))
      ensures forall n :: n in healthy <==> HealthCheckResult(n, true) in results
    {
      healthy := [];
      for k := 0 to |results|
        invariant Refer(healthy, Healthy(arrivals[..k]))
        invariant forall n :: n in healthy <==> HealthCheckResult(n, true) in results[..k]
      {
        assert arrivals[..k + 1][..k] == arrivals[..k];
        if results[k].isHealthy {
          healthy := healthy + [results[k].node];
        }
      }
      assert arrivals[..|arrivals|] == arrivals && results[..|results|] == results;
    }

    lemma HealthyListed(results: seq<HealthCheckResult>, healthy: seq<BeaconNode>, sorted: seq<BeaconNode>)
      requires forall n :: n in healthy <==> HealthCheckResult(n, true) in results
      requires multiset(sorted) == multiset(healthy)
      ensures forall n :: n in sorted <==> HealthCheckResult(n, true) in results
    {
      forall n ensures n in sorted <==> n in healthy {
        assert n in sorted <==> n in multiset(sorted);
        assert n in healthy <==> n in multiset(healthy);
      }
    }

    lemma StrictlyByPriority(sorted: seq<BeaconNode>, listed: seq<nat>)
      requires Refer(sorted, listed) && (forall a, b :: 0 <= a < b < |listed| ==> listed[a] < listed[b])
      requires Ordered(Views()) && forall i :: 0 <= i < |nodes| ==> nodes[i].priority == nodes[i].originalPriority
      ensures forall a, b :: 0 <= a < b < |sorted| ==> sorted[a].priority < sorted[b].priority
    {
      forall a, b | 0 <= a < b < |sorted| ensures sorted[a].priority < sorted[b].priority {
        assert Views()[listed[a]].original < Views()[listed[b]].original;
      }
    }

    /** Checks every node before the first request and lists the healthy ones. */
    method StartupHealthCheck(results: seq<HealthCheckResult>, ghost arrivals: seq<Arrival>) returns (ok: bool)
      requires Valid() && Unstarted(state)
      requires Delivers(results, arrivals) && Once(arrivals)
      modifies this
      ensures Valid() && Started(state) && state.nodes == old(state.nodes)
      ensures Members(state.listed) == Members(Healthy(arrivals))
      ensures forall n :: n in healthyNodes[..] <==> HealthCheckResult(n, true) in results
      ensures forall a, b :: 0 <= a < b < healthyNodes.Length ==> healthyNodes[a].priority < healthyNodes[b].priority
      ensures ok <==> healthyNodes.Length > 0
    {
      var healthy := CollectHealthy(results, arrivals);
      HealthyMembers(arrivals);
      var sorted := SortByPriority(healthy);
      ghost var listed := Positions(sorted, healthy, Healthy(arrivals));
      Install(sorted, listed);
      state := state.(listed := listed, seen := Members(listed));
      ok := |sorted| > 0;
      HealthyListed(results, healthy, sorted);
      StrictlyByPriority(sorted, listed);
    }

    /** The positions of `sorted`, a permutation of the nodes `l` at positions `at`. */
    lemma Positions(sorted: seq<BeaconNode>, l: seq<BeaconNode>, at: seq<nat>) returns (r: seq<nat>)
      requires NodesDistinct() && Refer(l, at) && Distinct(at)
      requires multiset(sorted) == multiset(l) && ByPriority(sorted)
      requires Ordered(Views()) && forall i :: 0 <= i < |nodes| ==> nodes[i].priority == nodes[i].originalPriority
      ensures Refer(sorted, r) && Members(r) == Members(at)
      ensures forall a, b :: 0 <= a < b < |r| ==> r[a] < r[b]
    {
      r := Locate(sorted, l, at);
      SortedDistinct(sorted, l, at);
      forall a, b | 0 <= a < b < |r| ensures r[a] < r[b] {
        assert sorted[a].priority <= sorted[b].priority;
        assert Views()[r[a]].original <= Views()[r[b]].original;
        assert r[a] != r[b];
      }
    }

    lemma SortedDistinct(sorted: seq<BeaconNode>, l: seq<BeaconNode>, at: seq<nat>)
      requires NodesDistinct() && Refer(l, at) && Distinct(at) && multiset(sorted) == multiset(l)
      ensures forall a, b :: 0 <= a < b < |sorted| ==> sorted[a] != sorted[b]
    {
      assert forall a, b :: 0 <= a < b < |l| ==> l[a] != l[b];
      forall a, b | 0 <= a < b < |sorted| ensures sorted[a] != sorted[b] {
        if sorted[a] == sorted[b] {
          RepeatCounts(sorted, a, b);
          DistinctCounts(l, sorted[a]);
        }
      }
    }

    lemma {:induction false} Locate(sorted: seq<BeaconNode>, l: seq<BeaconNode>, at: seq<nat>) returns (r: seq<nat>)
      requires NodesDistinct() && Refer(l, at) && multiset(sorted) == multiset(l)
      ensures Refer(sorted, r) && Members(r) == Members(at)
    {
      r := [];
      for k := 0 to |sorted|
        invariant Refer(sorted[..k], r) && forall i :: i in r ==> i in at
      {
        assert sorted[k] in multiset(sorted);
        assert sorted[k] in l;
        var q :| 0 <= q < |l| && l[q] == sorted[k];
        r := r + [at[q]];
      }
      assert sorted[..|sorted|] == sorted;
      forall i | i in at ensures i in r {
        var q :| 0 <= q < |at| && at[q] == i;
        assert l[q] in multiset(l);
        assert l[q] in sorted;
        var k :| 0 <= k < |sorted| && sorted[k] == l[q];
        assert r[k] == i;
      }
    }
  }

  lemma RepeatCounts<T>(l: seq<T>, a: nat, b: nat)
    requires a < b < |l| && l[a] == l[b]
    ensures multiset(l)[l[a]] >= 2
  {
    assert l == l[..a] + [l[a]] + l[a + 1..b] + [l[b]] + l[b + 1..];
  }

  lemma {:induction false} DistinctCounts<T>(l: seq<T>, x: T)
    requires forall a, b :: 0 <= a < b < |l| ==> l[a] != l[b]
    ensures multiset(l)[x] <= 1
  {
    if l != [] {
      var p, last := l[..|l| - 1], l[|l| - 1];
      assert l == p + [last];
      DistinctCounts(p, x);
      assert last !in p;
    }
  }

  function Inserted<T>(l: seq<T>, n: T, j: nat): (r: seq<T>)
    requires j <= |l|
    ensures |r| == |l| + 1 && r[j] == n
    ensures forall a :: 0 <= a < j ==> r[a] == l[a]
    ensures forall a :: j < a < |r| ==> r[a] == l[a - 1]
  {
    l[..j] + [n] + l[j..]
  }

  lemma InsertedMembers<T>(l: seq<T>, n: T, j: nat)
    requires j <= |l|
    ensures multiset(Inserted(l, n, j)) == multiset(l) + multiset{n}
  {
    assert l == l[..j] + l[j..];
  }

  lemma InsertKeepsOrder(l: seq<BeaconNode>, n: BeaconNode, j: nat)
    requires ByPriority(l) && j <= |l|
    requires forall a :: 0 <= a < j ==> l[a].priority <= n.priority
    requires forall a :: j <= a < |l| ==> l[a].priority > n.priority
    ensures ByPriority(Inserted(l, n, j))
  {
  }

  ghost predicate ByPriority(l: seq<BeaconNode>)
    reads l
  {
    forall a, b :: 0 <= a < b < |l| ==> l[a].priority <= l[b].priority
  }

  ghost predicate DistinctNames(configs: seq<NodeConfig>) {
    forall i, j :: 0 <= i < j < |configs| ==> configs[i].name != configs[j].name
  }

  ghost predicate NoneParses(configs: seq<NodeConfig>) {
    forall p :: 0 <= p < |configs| ==> !configs[p].parses
  }

  /** The positions of the configured nodes whose URL parses. */
  function Parsed(configs: seq<NodeConfig>): (r: seq<nat>)
    ensures forall a, b :: 0 <= a < b < |r| ==> r[a] < r[b]
    ensures forall a :: 0 <= a < |r| ==> r[a] < |configs| && configs[r[a]].parses
    ensures forall p: nat :: p < |configs| && configs[p].parses ==> p in r
  {
    if configs == [] then []
    else
      var last := |configs| - 1;
      var r := Parsed(configs[..last]);
      assert forall p: nat :: p < last && configs[p].parses ==> configs[..last][p].parses;
      r + if configs[last].parses then [last] else []
  }

  /** The nodes are exactly the configured nodes whose URL parses, in configuration order, each
      with its position in the configuration as priority. */
  ghost predicate Follows(nodes: seq<BeaconNode>, configs: seq<NodeConfig>)
    reads nodes
  {
    FollowsList(nodes, configs, Parsed(configs))
  }

  ghost predicate FollowsList(nodes: seq<BeaconNode>, configs: seq<NodeConfig>, at: seq<nat>)
    reads nodes
  {
    |nodes| == |at| && forall k :: 0 <= k < |nodes| ==> FollowsAt(nodes[k], configs, at[k])
  }

  lemma FollowsOrdered(nodes: seq<BeaconNode>, configs: seq<NodeConfig>)
    requires Follows(nodes, configs) && DistinctNames(configs)
    ensures forall i, j :: 0 <= i < j < |nodes| ==>
      nodes[i].name != nodes[j].name && nodes[i].originalPriority < nodes[j].originalPriority
  {
    var at := Parsed(configs);
    forall i, j | 0 <= i < j < |nodes|
      ensures nodes[i].name != nodes[j].name && nodes[i].originalPriority < nodes[j].originalPriority
    {
      assert FollowsAt(nodes[i], configs, at[i]) && FollowsAt(nodes[j], configs, at[j]);
    }
  }

  lemma FollowsOneMore(nodes: seq<BeaconNode>, node: BeaconNode, configs: seq<NodeConfig>, at: seq<nat>, i: nat)
    requires FollowsList(nodes, configs, at) && FollowsAt(node, configs, i)
    ensures FollowsList(nodes + [node], configs, at + [i])
  {
  }

  ghost predicate FollowsAt(node: BeaconNode, configs: seq<NodeConfig>, p: nat)
    reads node
  {
    p < |configs| && node.name == configs[p].name && node.View() == Node(p, p, 0, 0, 0, 0)
  }

  lemma LeastNext(nodes: seq<Node>, at: seq<nat>, k: nat)
    requires k < |at| && InRange(at[..k], |nodes|) && at[k] < |nodes|
    ensures InRange(at[..k + 1], |nodes|)
    ensures var p := LeastBackupIn(nodes, at[..k]);
      LeastBackupIn(nodes, at[..k + 1]) ==
        if nodes[at[k]].priority > 0 && (p == k || nodes[at[k]].priority < nodes[at[p]].priority) then k
        else if p == k then k + 1 else p
  {
    assert at[..k + 1][..k] == at[..k];
  }

  lemma NoneToCheck(nodes: seq<Node>)
    ensures BackupsUpTo(nodes, |nodes|) == [] <==> Backups(nodes) == {}
  {
    var backups := BackupsUpTo(nodes, |nodes|);
    if backups != [] {
      assert backups[0] in backups;
      assert backups[0] in Backups(nodes);
    }
  }

  ghost function RoundPrefix(arrivals: seq<Arrival>, k: nat): seq<Event>
    requires k <= |arrivals|
  {
    [RoundBegan] + Verdicts(arrivals[..k])
  }

  lemma RoundOpens(cfg: Config, start: State, arrivals: seq<Arrival>)
    requires start.phase.Idle?
    ensures Run(cfg, start, RoundPrefix(arrivals, 0)) == Step(cfg, start, RoundBegan)
    ensures Backups(start.nodes) != {} ==> Begin(start).phase == Collecting(Backups(start.nodes), [])
  {
    assert RoundPrefix(arrivals, 0) == [RoundBegan];
    assert [RoundBegan][..0] == [];
  }

  lemma PrefixChecked(arrivals: seq<Arrival>, k: nat)
    requires k < |arrivals| && Once(arrivals)
    ensures Once(arrivals[..k]) && Checked(arrivals[..k]) <= Checked(arrivals)
    ensures arrivals[k].node in Checked(arrivals) && arrivals[k].node !in Checked(arrivals[..k])
  {
    var p := arrivals[..k];
    assert forall j :: 0 <= j < |p| ==> p[j] == arrivals[j] && arrivals[j].node in Checked(arrivals);
    assert arrivals[k].node in Checked(arrivals);
  }

  lemma NextVerdict(cfg: Config, start: State, arrivals: seq<Arrival>, k: nat)
    requires start.phase.Idle? && Backups(start.nodes) != {}
    requires k < |arrivals| && Complete(start.nodes, arrivals)
    ensures var s, e := Run(cfg, start, RoundPrefix(arrivals, k)), Verdict(arrivals[k].node, arrivals[k].ok);
      Enabled(s, e) && Run(cfg, start, RoundPrefix(arrivals, k + 1)) == Step(cfg, s, e)
  {
    PrefixChecked(arrivals, k);
    AfterVerdicts(cfg, start, arrivals[..k]);
    GatherOne(start, arrivals[..k], arrivals[k], Run(cfg, start, RoundPrefix(arrivals, k)));
    VerdictsSnoc(cfg, start, arrivals[..k + 1]);
    assert arrivals[..k + 1][..k] == arrivals[..k];
  }

  lemma RoundCloses(cfg: Config, start: State, arrivals: seq<Arrival>)
    requires start.phase.Idle? && Backups(start.nodes) != {} && Complete(start.nodes, arrivals)
    ensures var s := Run(cfg, start, RoundPrefix(arrivals, |arrivals|));
      Enabled(s, RoundCommitted) && Run(cfg, start, RoundEvents(arrivals)) == Step(cfg, s, RoundCommitted)
  {
    assert arrivals[..|arrivals|] == arrivals;
    AfterVerdicts(cfg, start, arrivals);
    GatheredInRange(start, Run(cfg, start, RoundPrefix(arrivals, |arrivals|)), arrivals);
    assert RoundEvents(arrivals)[..|arrivals| + 1] == RoundPrefix(arrivals, |arrivals|);
  }
}
