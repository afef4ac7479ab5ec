/**
 What one request leaves in the counters of every node.
 */
module Accounting {
  import opened FailoverModel
  import opened FailoverInvariants
  import opened FailoverRuns
  import opened History
  import opened Requests

  lemma AttemptAccount(cfg: Config, s: State, i: nat, status: int, x: nat)
    requires Inv(s) && i in s.seen && i < |s.nodes| && x < |s.nodes|
    ensures var t := Run(cfg, s, AttemptEvents(i, status));
      && Inv(t) && |t.nodes| == |s.nodes| && s.seen <= t.seen
      && t.nodes[x].requests == s.nodes[x].requests + (if x == i then 1 else 0)
      && t.nodes[x].failures == s.nodes[x].failures + (if x == i && status >= 500 then 1 else 0)
      && (x == i && 200 <= status <= 399 ==> t.nodes[x].errors == 0)
      && (status < 500 ==> t.listed == s.listed)
  {
    AttemptUnfolds(cfg, s, i, status);
    RunKeeps(cfg, s, AttemptEvents(i, status));
    NodesStay(cfg, s, AttemptEvents(i, status));
    StepCounters(cfg, s, Attempted(i), x);
    StepKeeps(cfg, s, Attempted(i));
    var sent := Step(cfg, s, Attempted(i));
    if 200 <= status <= 399 {
      StepCounters(cfg, sent, Answered(i), x);
    } else if status >= 500 {
      StepCounters(cfg, sent, ServerError(i), x);
    }
  }

  /** The nodes of a snapshot, which all have been listed. */
  predicate Usable(s: State, snapshot: seq<nat>) {
    Distinct(snapshot) && forall i :: i in snapshot ==> i in s.seen && i < |s.nodes|
  }

  lemma {:induction false} AttemptsSend(cfg: Config, s: State, snapshot: seq<nat>, attempts: seq<Attempt>,
                                        k: nat, x: nat)
    requires Inv(s) && k <= |snapshot| == |attempts| && x < |s.nodes| && Usable(s, snapshot)
    ensures var t := AfterAttempts(cfg, s, snapshot, attempts, k);
      && Inv(t) && |t.nodes| == |s.nodes| && s.seen <= t.seen
      && t.nodes[x].requests == s.nodes[x].requests + (if x in snapshot[..k] then 1 else 0)
      && (k > 0 && x == snapshot[k - 1] && 200 <= attempts[k - 1].status <= 399 ==> t.nodes[x].errors == 0)
      && ((forall j :: 0 <= j < k ==> attempts[j].status < 500) ==> t.listed == s.listed)
  {
    if k == 0 {
      assert AfterAttempts(cfg, s, snapshot, attempts, 0) == s;
    } else {
      AttemptsSend(cfg, s, snapshot, attempts, k - 1, x);
      NextAttempt(cfg, s, snapshot, attempts, k - 1);
      assert snapshot[k - 1] in snapshot;
      var before := AfterAttempts(cfg, s, snapshot, attempts, k - 1);
      AttemptAccount(cfg, before, snapshot[k - 1], attempts[k - 1].status, x);
      assert snapshot[..k] == snapshot[..k - 1] + [snapshot[k - 1]];
    }
  }

  lemma {:induction false} AttemptsFail(cfg: Config, s: State, snapshot: seq<nat>, attempts: seq<Attempt>,
                                        k: nat, x: nat)
    requires Inv(s) && k <= |snapshot| == |attempts| && x < |s.nodes| && Usable(s, snapshot)
    ensures |AfterAttempts(cfg, s, snapshot, attempts, k).nodes| == |s.nodes|
    ensures AfterAttempts(cfg, s, snapshot, attempts, k).nodes[x].failures == s.nodes[x].failures
      + (if exists j :: 0 <= j < k && snapshot[j] == x && attempts[j].status >= 500 then 1 else 0)
  {
    if k == 0 {
      assert AfterAttempts(cfg, s, snapshot, attempts, 0) == s;
    } else {
      AttemptsSend(cfg, s, snapshot, attempts, k - 1, x);
      AttemptsFail(cfg, s, snapshot, attempts, k - 1, x);
      NextAttempt(cfg, s, snapshot, attempts, k - 1);
      assert snapshot[k - 1] in snapshot;
      var before := AfterAttempts(cfg, s, snapshot, attempts, k - 1);
      AttemptAccount(cfg, before, snapshot[k - 1], attempts[k - 1].status, x);
    }
  }

  lemma ListedInSeen(s: State)
    requires Inv(s)
    ensures Usable(s, s.listed)
  {
    assert forall i :: i in s.listed ==> Routable(s.nodes, s.seen, i);
  }

  /** After the first `k` attempts of an HTTP request in any reachable state, exactly the first `k`
      listed nodes have one request more, exactly those of them that answered with 500 or more have
      one failure more, the one that answered with 200 to 399 has no errors, and without a server
      error the routing list is unchanged. */
  lemma RequestAccounts(cfg: Config, s0: State, es: seq<Event>, s: State, attempts: seq<Attempt>, k: nat, x: nat)
    requires Reached(cfg, s0, es, s) && |attempts| == |s.listed| && k <= |attempts| && x < |s.nodes|
    ensures var t := AfterAttempts(cfg, s, s.listed, attempts, k);
      && |t.nodes| == |s.nodes|
      && t.nodes[x].requests == s.nodes[x].requests + (if x in s.listed[..k] then 1 else 0)
      && t.nodes[x].failures == s.nodes[x].failures
           + (if exists j :: 0 <= j < k && s.listed[j] == x && attempts[j].status >= 500 then 1 else 0)
      && (k > 0 && x == s.listed[k - 1] && 200 <= attempts[k - 1].status <= 399 ==> t.nodes[x].errors == 0)
      && ((forall j :: 0 <= j < k ==> attempts[j].status < 500) ==> t.listed == s.listed)
  {
    ReachableInv(cfg, s0, es);
    ListedInSeen(s);
    AttemptsSend(cfg, s, s.listed, attempts, k, x);
    AttemptsFail(cfg, s, s.listed, attempts, k, x);
  }

  lemma {:induction false} DialsAccount(cfg: Config, s: State, snapshot: seq<nat>, k: nat, x: nat)
    requires Inv(s) && k <= |snapshot| && x < |s.nodes| && Usable(s, snapshot)
    ensures var t := AfterDials(cfg, s, snapshot, k);
      && Inv(t) && |t.nodes| == |s.nodes| && s.seen <= t.seen
      && t.nodes[x].requests == s.nodes[x].requests
      && t.nodes[x].failures == s.nodes[x].failures + (if x in snapshot[..k] then 1 else 0)
  {
    if k == 0 {
      assert AfterDials(cfg, s, snapshot, 0) == s;
    } else {
      DialsAccount(cfg, s, snapshot, k - 1, x);
      NextDial(cfg, s, snapshot, k - 1);
      var t, i := AfterDials(cfg, s, snapshot, k - 1), snapshot[k - 1];
      assert i in snapshot;
      StepCounters(cfg, t, DialFailed(i), x);
      StepKeeps(cfg, t, DialFailed(i));
      StepNodesStay(cfg, t, DialFailed(i));
      assert snapshot[..k] == snapshot[..k - 1] + [i];
    }
  }

  /** After a WebSocket request whose first `failed` dials failed in any reachable state, exactly the
      nodes dialled in vain have one failure more, and exactly the node it is established with, if
      it is, has one request more. */
  lemma WebSocketAccounts(cfg: Config, s0: State, es: seq<Event>, s: State, failed: nat, established: bool, x: nat)
    requires Reached(cfg, s0, es, s) && failed <= |s.listed| && x < |s.nodes|
    requires established ==> failed < |s.listed|
    ensures var t := Run(cfg, s, DialEvents(s.listed[..failed])
        + if established then [Upgraded(s.listed[failed])] else []);
      && |t.nodes| == |s.nodes|
      && t.nodes[x].requests == s.nodes[x].requests + (if established && x == s.listed[failed] then 1 else 0)
      && t.nodes[x].failures == s.nodes[x].failures + (if x in s.listed[..failed] then 1 else 0)
  {
    ReachableInv(cfg, s0, es);
    ListedInSeen(s);
    DialsAccount(cfg, s, s.listed, failed, x);
    var dials := DialEvents(s.listed[..failed]);
    if established {
      assert s.listed[failed] in s.listed;
      assert (dials + [Upgraded(s.listed[failed])])[..|dials|] == dials;
      StepCounters(cfg, AfterDials(cfg, s, s.listed, failed), Upgraded(s.listed[failed]), x);
    } else {
      assert dials + [] == dials;
    }
  }
}
