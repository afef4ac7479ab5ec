/**
 The failover / failback state machine of the load balancer, on values.

 A node is named by its position in the configured list. The machine is fine-grained:
 a health round is a sequence of events (it begins, verdicts arrive one at a time, it
 commits) and request events may happen between any two of them.
 */
module FailoverModel {

  datatype Config = Config(errorThreshold: nat, failbackChecks: nat)

  datatype Node = Node(
    original: nat,
    priority: nat,
    errors: nat,
    successes: nat,
    failures: nat,
    requests: nat)

  /** What the running health round, if any, has gathered so far. */
  datatype Phase =
    | Idle
    | Collecting(waiting: set<nat>, healthy: seq<nat>)

  /** `listed` is the routing list. `seen` holds every node that has ever been listed:
      a request handler works on a snapshot, so it may still use any of them. */
  datatype State = State(nodes: seq<Node>, listed: seq<nat>, phase: Phase, seen: set<nat>)

  datatype Event =
    | Attempted(i: nat)               // an HTTP attempt is sent
    | Answered(i: nat)                // it came back with a status in 200..399
    | ServerError(i: nat)             // it came back with a status of 500 or more
    | DialFailed(i: nat)              // a WebSocket dial failed
    | Upgraded(i: nat)                // a WebSocket was established
    | RoundBegan
    | Verdict(i: nat, ok: bool)
    | RoundCommitted

  predicate IsRequest(e: Event) {
    e.Attempted? || e.Answered? || e.ServerError? || e.DialFailed? || e.Upgraded?
  }

  predicate IsFailure(e: Event) {
    e.ServerError? || e.DialFailed?
  }

  function Members(s: seq<nat>): set<nat> {
    set i | i in s
  }

  predicate Distinct(s: seq<nat>) {
    forall a, b :: 0 <= a < b < |s| ==> s[a] != s[b]
  }

  predicate InRange(s: seq<nat>, n: nat) {
    forall k :: 0 <= k < |s| ==> s[k] < n
  }

  function Without(s: seq<nat>, i: nat): (r: seq<nat>)
    ensures forall j :: j in r <==> j in s && j != i
    ensures Distinct(s) ==> Distinct(r)
  {
    if s == [] then []
    else
      var r := Without(s[..|s| - 1], i);
      assert Distinct(s) ==> Distinct(s[..|s| - 1]) && s[|s| - 1] !in s[..|s| - 1];
      if s[|s| - 1] == i then r else r + [s[|s| - 1]]
  }

  /** The first node at priority 0, or the number of nodes when there is none. */
  function FirstPrimary(nodes: seq<Node>): (k: nat)
    ensures k <= |nodes|
    ensures k < |nodes| ==> nodes[k].priority == 0
    ensures forall j :: 0 <= j < k ==> nodes[j].priority > 0
  {
    FirstPrimaryFrom(nodes, 0)
  }

  function FirstPrimaryFrom(nodes: seq<Node>, from: nat): (k: nat)
    requires from <= |nodes|
    ensures from <= k <= |nodes|
    ensures k < |nodes| ==> nodes[k].priority == 0
    ensures forall j :: from <= j < k ==> nodes[j].priority > 0
    decreases |nodes| - from
  {
    if from == |nodes| || nodes[from].priority == 0 then from else FirstPrimaryFrom(nodes, from + 1)
  }

  /** The position in `h` of the first node configured at priority 0, or `|h|`. */
  function OriginalIn(nodes: seq<Node>, h: seq<nat>): (p: nat)
    requires InRange(h, |nodes|)
    ensures p <= |h|
    ensures p < |h| ==> nodes[h[p]].original == 0
    ensures forall q :: 0 <= q < p ==> nodes[h[q]].original != 0
  {
    if h == [] then 0
    else
      var p := OriginalIn(nodes, h[..|h| - 1]);
      if p < |h| - 1 then p
      else if nodes[h[|h| - 1]].original == 0 then |h| - 1 else |h|
  }

  /** The position in `h` of the first node of least positive priority, or `|h|`. */
  function LeastBackupIn(nodes: seq<Node>, h: seq<nat>): (p: nat)
    requires InRange(h, |nodes|)
    ensures p <= |h|
    ensures p < |h| ==> nodes[h[p]].priority > 0
    ensures p < |h| ==>
      forall q :: 0 <= q < |h| && nodes[h[q]].priority > 0 ==> nodes[h[p]].priority <= nodes[h[q]].priority
    ensures p == |h| ==> forall q :: 0 <= q < |h| ==> nodes[h[q]].priority == 0
  {
    if h == [] then 0
    else
      var last := |h| - 1;
      var p := LeastBackupIn(nodes, h[..last]);
      if nodes[h[last]].priority > 0 && (p == last || nodes[h[last]].priority < nodes[h[p]].priority) then last
      else if p == last then |h| else p
  }

  /** `m` differs from `n` in its priority and error counter at most. */
  predicate SameCounts(n: Node, m: Node) {
    m == n.(priority := m.priority, errors := m.errors)
  }

  predicate FailsBack(cfg: Config, nodes: seq<Node>, h: seq<nat>)
    requires InRange(h, |nodes|)
  {
    var p := OriginalIn(nodes, h);
    var cp := FirstPrimary(nodes);
    p < |h| && nodes[h[p]].successes >= cfg.failbackChecks && cp < |nodes| && cp != h[p]
  }

  function AfterFailback(cfg: Config, nodes: seq<Node>, h: seq<nat>): (r: seq<Node>)
    requires InRange(h, |nodes|)
    ensures |r| == |nodes|
    ensures forall i :: 0 <= i < |nodes| ==> SameCounts(nodes[i], r[i])
  {
    if FailsBack(cfg, nodes, h) then
      var op := h[OriginalIn(nodes, h)];
      var cp := FirstPrimary(nodes);
      var restored := nodes[op := nodes[op].(priority := 0, errors := 0)];
      restored[cp := restored[cp].(priority := restored[cp].original)]
    else nodes
  }

  function AfterRestore(nodes: seq<Node>, h: seq<nat>): (r: seq<Node>)
    ensures |r| == |nodes|
    ensures forall i :: 0 <= i < |nodes| ==>
      r[i] == if i in h then nodes[i].(priority := nodes[i].original) else nodes[i]
  {
    seq(|nodes|, i requires 0 <= i < |nodes| =>
      if i in h then nodes[i].(priority := nodes[i].original) else nodes[i])
  }

  /** The position in `h` of the node to promote when no node is primary, or `|h|`. */
  function Promotion(nodes: seq<Node>, h: seq<nat>): (p: nat)
    requires InRange(h, |nodes|)
    ensures p <= |h|
  {
    if OriginalIn(nodes, h) < |h| then OriginalIn(nodes, h) else LeastBackupIn(nodes, h)
  }

  function AfterPromotion(nodes: seq<Node>, h: seq<nat>): (r: seq<Node>)
    requires InRange(h, |nodes|)
    ensures |r| == |nodes|
    ensures forall i :: 0 <= i < |nodes| ==> SameCounts(nodes[i], r[i])
  {
    if FirstPrimary(nodes) == |nodes| && Promotion(nodes, h) < |h| then
      var i := h[Promotion(nodes, h)];
      nodes[i := nodes[i].(priority := 0, errors := 0)]
    else nodes
  }

  /** The current primary heads the new routing list when the old list had it. */
  function Kept(nodes: seq<Node>, listed: seq<nat>): seq<nat> {
    var cp := FirstPrimary(nodes);
    if cp < |nodes| && cp in listed then [cp] else []
  }

  function Backups(nodes: seq<Node>): set<nat> {
    set i: nat | i < |nodes| && nodes[i].priority > 0
  }

  function Begin(s: State): State {
    if Backups(s.nodes) == {} then s else s.(phase := Collecting(Backups(s.nodes), []))
  }

  function Collect(s: State, i: nat, ok: bool): State
    requires s.phase.Collecting? && i < |s.nodes|
  {
    var node := s.nodes[i];
    if ok then
      s.(nodes := s.nodes[i := node.(successes := node.successes + 1, errors := 0)],
         phase := Collecting(s.phase.waiting - {i}, s.phase.healthy + [i]))
    else
      s.(nodes := s.nodes[i := node.(successes := 0)],
         phase := Collecting(s.phase.waiting - {i}, s.phase.healthy))
  }

  function Commit(cfg: Config, s: State): State
    requires s.phase.Collecting? && InRange(s.phase.healthy, |s.nodes|)
  {
    var h := s.phase.healthy;
    var restored := AfterRestore(AfterFailback(cfg, s.nodes, h), h);
    var listed := Kept(restored, s.listed) + h;
    State(AfterPromotion(restored, h), listed, Idle, s.seen + Members(listed))
  }

  predicate Demotes(cfg: Config, s: State, i: nat) {
    i < |s.nodes| && s.nodes[i].priority == 0 && s.nodes[i].errors + 1 >= cfg.errorThreshold
  }

  /** A failed request or dial on node `i`, HTTP and WebSocket alike. */
  function Fail(cfg: Config, s: State, i: nat): State
    requires i < |s.nodes|
  {
    var node := s.nodes[i];
    var failed := node.(errors := node.errors + 1, failures := node.failures + 1, successes := 0);
    if Demotes(cfg, s, i) then
      s.(nodes := s.nodes[i := failed.(priority := |s.nodes|)], listed := Without(s.listed, i))
    else
      s.(nodes := s.nodes[i := failed])
  }

  function Send(s: State, i: nat): State
    requires i < |s.nodes|
  {
    s.(nodes := s.nodes[i := s.nodes[i].(requests := s.nodes[i].requests + 1)])
  }

  function Answer(s: State, i: nat): State
    requires i < |s.nodes|
  {
    s.(nodes := s.nodes[i := s.nodes[i].(errors := 0)])
  }

  predicate Enabled(s: State, e: Event) {
    match e
    case RoundBegan => s.phase.Idle?
    case Verdict(i, _) => s.phase.Collecting? && i in s.phase.waiting && i < |s.nodes|
    case RoundCommitted => s.phase.Collecting? && s.phase.waiting == {} && InRange(s.phase.healthy, |s.nodes|)
    case _ => e.i in s.seen && e.i < |s.nodes|
  }

  /** One event; an event that is not enabled changes nothing. */
  function Step(cfg: Config, s: State, e: Event): State {
    if !Enabled(s, e) then s
    else match e
      case Attempted(i) => Send(s, i)
      case Answered(i) => Answer(s, i)
      case ServerError(i) => Fail(cfg, s, i)
      case DialFailed(i) => Fail(cfg, s, i)
      case Upgraded(i) => Send(s, i)
      case RoundBegan => Begin(s)
      case Verdict(i, ok) => Collect(s, i, ok)
      case RoundCommitted => Commit(cfg, s)
  }

  function Run(cfg: Config, s: State, es: seq<Event>): State {
    if es == [] then s
    else Step(cfg, Run(cfg, s, es[..|es| - 1]), es[|es| - 1])
  }

  /** Every event happens when it is enabled. */
  predicate Legal(cfg: Config, s: State, es: seq<Event>) {
    forall k :: 0 <= k < |es| ==> Enabled(Run(cfg, s, es[..k]), es[k])
  }

  /** No request event falls inside a health round. */
  predicate Atomic(cfg: Config, s: State, es: seq<Event>) {
    forall k :: 0 <= k < |es| && IsRequest(es[k]) ==> Run(cfg, s, es[..k]).phase.Idle?
  }

  /** The configured order: original priorities are positions in the configuration, so they
      increase along the list (a node whose URL does not parse leaves a gap). */
  predicate Ordered(nodes: seq<Node>) {
    forall i, j :: 0 <= i < j < |nodes| ==> nodes[i].original < nodes[j].original
  }

  /** The state after the startup health check. */
  predicate Started(s: State) {
    && Ordered(s.nodes)
    && (forall i :: 0 <= i < |s.nodes| ==>
          s.nodes[i] == Node(s.nodes[i].original, s.nodes[i].original, 0, 0, 0, 0))
    && InRange(s.listed, |s.nodes|)
    && (forall a, b :: 0 <= a < b < |s.listed| ==> s.listed[a] < s.listed[b])
    && s.phase == Idle
    && s.seen == Members(s.listed)
  }

  /** The events `es` lead from the startup state `s` to `t`. */
  ghost predicate Reached(cfg: Config, s: State, es: seq<Event>, t: State) {
    Started(s) && t == Run(cfg, s, es)
  }

  lemma {:induction false} RunConcat(cfg: Config, s: State, a: seq<Event>, b: seq<Event>)
    ensures Run(cfg, s, a + b) == Run(cfg, Run(cfg, s, a), b)
  {
    if b == [] {
      assert a + b == a;
    } else {
      var last := |b| - 1;
      assert (a + b)[..|a + b| - 1] == a + b[..last];
      RunConcat(cfg, s, a, b[..last]);
    }
  }
}
