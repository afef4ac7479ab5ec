# Consensus proxy: failover, rate limiting, whitelist and DNS cache

The proxy stands before a list of beacon nodes. It sends each client request to the nodes of a
routing list in turn, counts their errors, demotes a primary that fails too often, checks the
backups in rounds, promotes one of them, and fails back to the configured primary. This project
models that machinery together with the per-client rate limiter, the whitelist of request paths
and the DNS cache, and proves what each of them keeps over every run.

Verify everything with `dafny verify dfyconfig.toml`.

## How the model is built

* `FailoverModel` is the failover machine on values. Its state is the configured nodes (priority,
  configured priority, four counters), the routing list, the phase of the running health round and
  the set of nodes that have ever been listed. A health round is a sequence of events: it begins,
  verdicts arrive one at a time in any order, it commits under the lock. Request events (an HTTP
  attempt, a success, a server error, a failed dial, an upgraded WebSocket) may fall between any two
  of them, on any node that was ever listed, because a handler works on an old snapshot of the list.
  `Run` folds a sequence of events, and an event that is not enabled changes nothing, so a theorem
  about `Run` covers every interleaving.
* `FailoverInvariants` holds the joint inductive invariant and the effect of a commit,
  `FailoverRuns` the safety theorems over every run, `AtomicRuns` those for runs in which no request
  event falls inside a round, `Rounds` and `Stabilisation` whole rounds, `History` the counters
  against the events, and `Thresholds` when two nodes can be primary at once. `Interleavings` holds
  the runs in which a failure falls inside a round or a lost stand-in blocks a promotion, and
  `DemotionMarkers` when the demotion priority is ambiguous.
* `BeaconNodes`, `LoadBalancing` and `Requests` are the objects and loops of the program.
  `LoadBalancer` has the fields of the source and a ghost state of the machine. Each of its methods
  is proved to step the machine, so the theorems about runs apply to it. `Accounting` says what one
  request leaves in the counters of every node.
* `RateWindow` compares the pruned and swept buckets with a limiter that never forgets;
  `RateLimiting` is the class that compacts its buckets in place. Times are in nanoseconds.
* `EndpointTable`, `Endpoints` and `Validation` are the pattern table, its language and the class
  that checks paths; `Whitelist` says what the table allows. `DnsModel` and `DnsCaching` are the DNS cache and its timers.

Nodes are named by their position in the configured list. The hypotheses are written where they are
used: node names are distinct; the error threshold and the failback threshold are at least 1
(`cmd/config/config.go:295`, `cmd/config/config.go:348`) where a theorem says so; rounds do not
overlap, since one goroutine runs them; each event of the machine is one atomic step, that is an error
step (count, demote, unlist), a verdict (`IncrementSuccess`, `ResetErrors`) and a commit. The program
guarantees less: the counters and priorities of a node are not guarded by the lock of the routing list,
so a handler's `IncrementError` or `SetPriority` may fall inside a commit, and that is not modelled. The
clock does not run backwards, and counters are unbounded where the program has 64 bits.

## What the code does where its documentation says something else

* The program's own README (line 213 there) promises failback after N healthy checks. The restore loop of a round
  (`cmd/loadbalancer/health_check.go:297-307`) returns the configured primary to priority 0 on its
  first healthy check whatever N is (`FailoverRuns.FirstHealthyCheckRestores`). The failback branch is
  dead for N of 2 or more (`FailoverRuns.FailbackNeverFires`), and the backup that stood in stays at
  priority 0, unchecked and out of the routing list (`FailoverRuns.StandInIsLost`). When the configured
  primary is demoted again, that backup blocks every promotion
  (`FailoverRuns.NoPromotionWhileBlocked`, reached by `Interleavings.BlockingRunBlocks`).
* With atomic rounds two nodes can be primary at once exactly when N is 2 or more and the configured
  primary started and has a stand-in (`Thresholds.TwoPrimariesIff`). With requests inside rounds that
  happens for every N (`Interleavings.SplitsIff`), and `Thresholds.CommitSplitsIff` says which commits do
  it. Two healthy rounds do not heal a split (`Stabilisation.StabilisesIff`). The routing list holds at
  most one primary for every N (`FailoverRuns.OnePrimaryRouted`).
* With requests inside rounds the configured primary can come back with as many errors as the threshold
  or more, without being demoted; exactly when is `AtomicRuns.OverdueIff`, and
  `Interleavings.OverdueRunIsOverdue` is such a run.
* A failure that falls between a node's healthy check and the commit that promotes the node is wiped
  from its error counter (`cmd/loadbalancer/health_check.go:354`), although the node has not answered
  since. The counter is the failure streak exactly when no commit has done so
  (`History.ErrorsAreHistory`, `History.WipesIff`, with the run `Interleavings.WipingRunWipes`).
* A configured primary that fails the startup check is never checked, listed or replaced afterwards
  (`FailoverRuns.PrimaryDownAtStartup`).
* After a round the backups stand in the order their verdicts arrived, not in priority order
  (`cmd/loadbalancer/health_check.go:370`); only startup sorts.
* When the overall timeout has passed before an attempt, no response is written
  (`cmd/loadbalancer/http_handler.go:62-64`). A status in 400..499 is retried like a server error but
  not counted.
* The sweep of the rate limiter has a fixed age of five minutes, which the configuration does not
  relate to the window. The limiter agrees with the full history exactly when the window is at most
  five minutes and one nanosecond (`RateWindow.RefinementIff`), and so do the rate bound and the isolation
  of clients (`RateWindow.RateBoundIff`, `RateWindow.IsolationIff`).
* An unparsable node URL leaves a gap in the configured priorities, so a configured priority may equal
  the demotion priority; exactly when is `DemotionMarkers.DemotionMarkerIsUnambiguous`.
* A delayed delete of the DNS cache removes whatever is stored for its host by then. An entry can go
  before its time exactly when a timer of an earlier answer is pending (`DnsModel.RemovedEarlyIff`).

## Model

| member | source | states |
|---|---|---|
| `FailoverRuns.RoutingListSafe` | cmd/loadbalancer/health_check.go:309-371 | in every reachable state, requests and rounds interleaved in any way, the routing list is a duplicate-free list of configured nodes, every priority is 0, the configured one or the number of nodes, and a displaced node is never listed |
| `FailoverRuns.OnePrimaryRouted` | cmd/loadbalancer/health_check.go:297-371 | for every failback threshold, at most one listed node has priority 0, and at most one node other than the configured primary has priority 0 |
| `DemotionMarkers.DemotionMarkerIsUnambiguous` | cmd/loadbalancer/http_handler.go:188-203 | after every startup with some healthy node, no listed node ever has the demotion priority if and only if no configured priority equals the number of nodes |
| `DemotionMarkers.CollidingIsListed` | cmd/loadbalancer/http_handler.go:188-203 | a node configured at that priority is listed with it by some run, whether or not it passed startup |
| `DemotionMarkers.ListedByTwoRounds` | cmd/loadbalancer/health_check.go:297-371 | when even the first node is configured there, two rounds list it |
| `FailoverRuns.SnapshotStaysUsable` | cmd/loadbalancer/loadbalancer.go:86-90 | a node of a routing list handed out can be tried and can fail after any further events |
| `FailoverRuns.ReachableInv` | cmd/loadbalancer/health_check.go:121-372 | the joint invariant (priority domain, list, one listed primary, one stand-in, round bookkeeping, no success streak) holds in every reachable state |
| `FailoverRuns.RunKeeps` | cmd/loadbalancer/health_check.go:121-372 | every run from a state with the joint invariant ends in one, whatever the interleaving |
| `FailoverInvariants.StepKeeps` | cmd/loadbalancer/health_check.go:121-372 | every event keeps the joint invariant |
| `FailoverInvariants.FailKeeps` | cmd/loadbalancer/http_handler.go:170-204 | a counted failure, with or without a demotion, keeps the joint invariant |
| `FailoverRuns.FailureEffect` | cmd/loadbalancer/http_handler.go:172-204 | in every reachable state a failed request or dial counts on its node alone; a node at priority 0 whose errors thereby reach the threshold gets the number of nodes as priority and leaves the routing list, all others keeping their order, and otherwise neither priorities nor list change |
| `FailoverRuns.DemotedStaysUnlisted` | cmd/loadbalancer/websocket_handler.go:93-119 | a demoted node is a backup and unlisted over every continuation in which it does not pass a check |
| `FailoverInvariants.CollectKeeps` | cmd/loadbalancer/health_check.go:168-183 | a verdict keeps the joint invariant |
| `FailoverInvariants.CommittedState` | cmd/loadbalancer/health_check.go:238-372 | what failback, restoration, rebuild and promotion together do to each node and to the routing list, in terms of the state before the commit |
| `FailoverRuns.CommitIs` | cmd/loadbalancer/health_check.go:238-372 | the commit of a round in every reachable state, outright: who gets which priority, whose error counter is cleared, what stays, and the new routing list in order |
| `FailoverInvariants.PromotedIsHighest` | cmd/loadbalancer/health_check.go:328-353 | when no primary is left, some healthy node is promoted if there is one, and it is the only one configured at the highest priority |
| `FailoverInvariants.FailsBackIff` | cmd/loadbalancer/health_check.go:241-274 | failback happens if and only if some node is primary and a checked node configured at priority 0 has passed enough checks |
| `FailoverInvariants.CommitKeepsOneListed` | cmd/loadbalancer/health_check.go:309-371 | a commit lists at most one primary |
| `FailoverInvariants.CommitListsPrimaryIff` | cmd/loadbalancer/health_check.go:309-371 | a commit lists a primary if and only if the configured primary passed its check, or the current primary was listed, or there was none and some node passed |
| `FailoverInvariants.CommitKeepsList` | cmd/loadbalancer/health_check.go:309-371 | a commit lists no node twice and no displaced node |
| `FailoverInvariants.ZeroOnReturn` | cmd/loadbalancer/health_check.go:273-307 | after a commit that brings the configured primary back, the primaries are it and, without failback, the one before |
| `FailoverInvariants.ZeroWithoutReturn` | cmd/loadbalancer/health_check.go:312-353 | after any other commit, the primaries are those before, or the promoted node when there were none |
| `FailoverModel.FirstPrimary` | cmd/loadbalancer/health_check.go:264-271 | the node found has priority 0 and none before it does, or no node does |
| `FailoverModel.OriginalIn` | cmd/loadbalancer/health_check.go:241-248 | the first checked node configured at priority 0, or none is |
| `FailoverModel.LeastBackupIn` | cmd/loadbalancer/health_check.go:339-348 | a node of least positive priority, or all have priority 0 |
| `FailoverInvariants.RestoredEffect` | cmd/loadbalancer/health_check.go:241-307 | after failback and restoration every checked node has its configured priority, the current primary has given way if and only if the configured one has passed enough checks, and nothing else has changed |
| `FailoverInvariants.RestoredPrimary` | cmd/loadbalancer/health_check.go:297-326 | restoration moves the first primary only when it brings the configured one back |
| `FailoverModel.RunConcat` | cmd/loadbalancer/health_check.go:121-372 | a run of one history after another is the run of both together |
| `FailoverRuns.FirstHealthyCheckRestores` | cmd/loadbalancer/health_check.go:297-307 | the configured primary is back at priority 0 in the round of its first healthy check, whatever the threshold |
| `FailoverRuns.FailbackNeverFires` | cmd/loadbalancer/health_check.go:250-295 | for a threshold of 2 or more no reachable commit takes the failback branch |
| `FailoverRuns.StandInIsLost` | cmd/loadbalancer/health_check.go:297-326 | for a threshold of 2 or more, once the configured primary is back its stand-in keeps priority 0 and stays out of the routing list over every continuation without a failure on it |
| `FailoverRuns.NoPromotionWhileBlocked` | cmd/loadbalancer/health_check.go:312-329 | while a lost stand-in keeps priority 0 and the configured primary is displaced, no continuation lists a primary until the configured one passes a check or the stand-in fails a request |
| `FailoverRuns.PrimaryDownAtStartup` | cmd/loadbalancer/health_check.go:123-128 | a configured primary that fails the startup check is untouched by every run and no other node is ever promoted |
| `AtomicRuns.AtomicInv` | cmd/loadbalancer/http_handler.go:170-204 | with atomic rounds every node at priority 0 is below the error threshold, and with failback threshold 1 at most one node has priority 0 |
| `AtomicRuns.DemotedAtThreshold` | cmd/loadbalancer/websocket_handler.go:90-104 | with atomic rounds a primary is demoted, by HTTP or WebSocket, exactly when its counter reaches the threshold, never beyond it |
| `AtomicRuns.OverdueIff` | cmd/loadbalancer/health_check.go:297-307 | in every reachable state and for every event, a node becomes a primary with errors at the threshold or beyond if and only if a commit brings back the configured primary without failback and its errors since its check have reached the threshold |
| `Interleavings.OverdueRunIsOverdue` | cmd/loadbalancer/health_check.go:297-307 | for every threshold, a run to such a primary |
| `AtomicRuns.OnePrimaryAtThresholdOne` | cmd/loadbalancer/health_check.go:264-307 | with threshold 1 and atomic rounds at most one node of any kind has priority 0 |
| `AtomicRuns.FailbackFiresIff` | cmd/loadbalancer/health_check.go:250-295 | with atomic rounds the failback branch runs if and only if the threshold is 1, the configured primary passed its check and another node is primary |
| `AtomicRuns.NoSuccessBetweenRounds` | cmd/beaconnode/node.go:64-80 | between rounds a displaced configured primary has no consecutive success on record |
| `AtomicRuns.PrimaryStaysRouted` | cmd/loadbalancer/health_check.go:312-326 | a configured primary that passed startup is listed whenever it has priority 0 |
| `Rounds.RoundEffect` | cmd/loadbalancer/health_check.go:121-372 | the exact effect of a whole round in terms of the state before it: the new list is the retained primary and the healthy backups in arrival order, every counter and every priority |
| `Rounds.NoBackupsNoRound` | cmd/loadbalancer/health_check.go:130-133 | without backups a round changes nothing |
| `Rounds.HealthyMembers` | cmd/loadbalancer/health_check.go:164-173 | the collected list holds exactly the nodes that passed, each once, and only checked ones |
| `Rounds.HealthyInOrder` | cmd/loadbalancer/health_check.go:168-173 | the collected nodes stand in the order in which their verdicts arrived |
| `Rounds.AfterVerdicts` | cmd/loadbalancer/health_check.go:168-183 | after any part of the verdicts: who is still awaited, who has passed, and the counters of every node |
| `Stabilisation.RoundConfluence` | cmd/loadbalancer/health_check.go:168-371 | in every reachable state two arrival orders of the same verdicts give the same nodes and permuted routing lists, with the same head when the primary is retained |
| `Stabilisation.TwoHealthyRounds` | cmd/loadbalancer/health_check.go:121-372 | from every reachable state between rounds, interleaved histories included, two all-healthy rounds without a failure between them restore the configured priorities and routing if and only if the configured primary is routed or displaced and nothing stands in for it, or the threshold is 1 and it is displaced |
| `Stabilisation.StabilisesIff` | cmd/loadbalancer/health_check.go:121-372 | with threshold 1 and a configured primary that passed startup, two all-healthy rounds restore a reachable state if and only if it does not have two primaries |
| `Stabilisation.SelfStabilises` | cmd/loadbalancer/health_check.go:121-372 | with threshold 1 and a configured primary that passed startup, two all-healthy rounds restore every state reached with atomic rounds |
| `Stabilisation.SecondHealthyRound` | cmd/loadbalancer/health_check.go:297-371 | with the configured primary at priority 0, one all-healthy round restores the routing if and only if it is listed and nothing stands in for it |
| `Stabilisation.HealthyRound` | cmd/loadbalancer/health_check.go:241-371 | an all-healthy round puts the configured primary at priority 0, every checked backup at its configured priority, and says which stand-in survives |
| `History.CountersAreHistory` | cmd/beaconnode/node.go:64-90 | in every legal run the success, request and failure counters are what the history says |
| `History.ErrorsAreHistory` | cmd/beaconnode/node.go:59-70 | in every legal run the error counter is the number of failures since the last answer, passed check or clearing commit, and it is the failure streak if and only if no commit has wiped failures since the last answer or passed check |
| `History.CommitParts` | cmd/loadbalancer/health_check.go:350-354 | a commit makes counter and streak part if and only if it clears a positive counter |
| `History.WipesIff` | cmd/loadbalancer/health_check.go:328-354 | in every reachable state a commit wipes failures of a node if and only if it promotes the node and the node has errors, so only failures after its check |
| `History.AtomicErrorsAreHistory` | cmd/loadbalancer/health_check.go:171-172 | with atomic rounds the error counter is the failure streak |
| `Interleavings.WipingRunWipes` | cmd/loadbalancer/health_check.go:350-354 | whenever the first two nodes passed startup and the first is the configured primary, a run after which the counter is lower than the streak |
| `History.StepCounters` | cmd/loadbalancer/http_handler.go:126-172 | what each event does to each counter of each node |
| `History.Conservation` | cmd/loadbalancer/websocket_handler.go:55-90 | over every legal run all requests are HTTP attempts and established WebSockets, all failures are server errors and failed dials |
| `History.DemotionsArePaidFor` | cmd/loadbalancer/http_handler.go:171-204 | over every run, rounds interleaved in any way, a node's failures are at least the threshold times its demotions plus its error counter while it is a primary |
| `History.DemotionIs` | cmd/loadbalancer/http_handler.go:176-189 | what is counted as a demotion is exactly a failed request or dial that takes priority 0 from the node |
| `Thresholds.TwoPrimariesIff` | cmd/loadbalancer/health_check.go:250-307 | after every startup, with atomic rounds some legal run has two nodes at priority 0 if and only if the failback threshold is 2 or more and the configured primary started and has another node to stand in for it |
| `Thresholds.CannotSplit` | cmd/loadbalancer/health_check.go:264-307 | after any other startup no run has two nodes at priority 0 |
| `Interleavings.SplitsIff` | cmd/loadbalancer/health_check.go:238-307 | with requests inside rounds the same holds for every threshold |
| `Interleavings.InterleavedSplitSplits` | cmd/loadbalancer/http_handler.go:170-176 | for every threshold, the run in which a failure between check and commit leaves two nodes at priority 0 |
| `Interleavings.BlockingRunBlocks` | cmd/loadbalancer/health_check.go:312-329 | for every threshold of 2 or more, a run to a state in which a lost stand-in blocks every promotion |
| `Thresholds.SplitRunSplits` | cmd/loadbalancer/health_check.go:297-307 | for every configuration with a threshold of 2 or more, the run that splits the primary |
| `Thresholds.CommitSplitsIff` | cmd/loadbalancer/health_check.go:250-307 | for every threshold and every reachable state, split before or not, a commit leaves two primaries if and only if the configured primary passed its check with too few successes on record while another node is primary, or it did not pass and there were two before |
| `BeaconNodes.BeaconNode.constructor` | cmd/beaconnode/node.go:29-52 | a node starts with clean counters |
| `BeaconNodes.BeaconNode.ResetErrors` | cmd/beaconnode/node.go:59-62 | the error streak is cleared and nothing else |
| `BeaconNodes.BeaconNode.IncrementError` | cmd/beaconnode/node.go:64-70 | an error lengthens both error counts and breaks the success streak |
| `BeaconNodes.BeaconNode.IncrementSuccess` | cmd/beaconnode/node.go:72-75 | one more consecutive success and nothing else |
| `BeaconNodes.BeaconNode.ResetSuccesses` | cmd/beaconnode/node.go:77-80 | the success streak is cleared and nothing else |
| `BeaconNodes.BeaconNode.IncrementRequests` | cmd/beaconnode/node.go:87-90 | one more request and nothing else |
| `BeaconNodes.BeaconNode.SetPriority` | cmd/beaconnode/node.go:97-102 | the priority is set and nothing else |
| `LoadBalancing.LoadBalancer.Create` | cmd/loadbalancer/loadbalancer.go:29-68 | the nodes are those whose URL parses, in configuration order, each with its position as both priorities, and the whitelist is the table; it fails if and only if there is no node |
| `LoadBalancing.LoadBalancer.ConfiguredNode` | cmd/loadbalancer/loadbalancer.go:36-50 | every configured node whose URL parses is a node with its position as both priorities |
| `LoadBalancing.LoadBalancer.NodeConfigured` | cmd/loadbalancer/loadbalancer.go:36-50 | there are no other nodes, and they keep the order of the configuration |
| `LoadBalancing.LoadBalancer.GetHealthyNodes` | cmd/loadbalancer/loadbalancer.go:86-90 | a handler is handed the routing slice itself |
| `LoadBalancing.LoadBalancer.StartupHealthCheck` | cmd/loadbalancer/health_check.go:56-100 | lists exactly the healthy nodes in configuration order, changes no node, and fails if and only if none is healthy |
| `LoadBalancing.LoadBalancer.SortByPriority` | cmd/loadbalancer/health_check.go:75-78 | an ordered permutation |
| `LoadBalancing.LoadBalancer.BeginRound` | cmd/loadbalancer/health_check.go:123-133 | collects exactly the backups, each once and in configuration order, and the round is over when there is none |
| `LoadBalancing.LoadBalancer.RecordResult` | cmd/loadbalancer/health_check.go:168-183 | one result is the machine's verdict event |
| `LoadBalancing.LoadBalancer.CollectResults` | cmd/loadbalancer/health_check.go:164-236 | taking every result is the opening of the machine's round, for any arrival order |
| `LoadBalancing.LoadBalancer.Failback` | cmd/loadbalancer/health_check.go:241-295 | updates the nodes in place as the machine's failback does |
| `LoadBalancing.LoadBalancer.Restore` | cmd/loadbalancer/health_check.go:297-307 | updates the nodes in place as the machine's restoration does |
| `LoadBalancing.LoadBalancer.KeepPrimary` | cmd/loadbalancer/health_check.go:309-326 | the first primary heads the new list when the old list had it |
| `LoadBalancing.LoadBalancer.FindLeastBackup` | cmd/loadbalancer/health_check.go:340-348 | finds the first healthy node of least positive priority |
| `LoadBalancing.LoadBalancer.Promote` | cmd/loadbalancer/health_check.go:328-367 | updates the nodes in place as the machine's promotion does |
| `LoadBalancing.LoadBalancer.CommitRound` | cmd/loadbalancer/health_check.go:238-372 | the locked part is the machine's commit, and the new routing list is a new slice |
| `LoadBalancing.LoadBalancer.PerformHealthCheck` | cmd/loadbalancer/health_check.go:121-372 | a whole round is the machine's run of its events, for every arrival order, and writes to no slice handed out before |
| `LoadBalancing.LoadBalancer.Unlist` | cmd/loadbalancer/http_handler.go:195-204 | drops a node by name into a new slice; the old one is untouched |
| `LoadBalancing.LoadBalancer.CountFailure` | cmd/loadbalancer/http_handler.go:172-204 | counting a failure and demoting at the threshold is the machine's failure event |
| `LoadBalancing.LoadBalancer.HandleNodeError` | cmd/loadbalancer/http_handler.go:170-223 | only statuses of 500 or more are counted |
| `LoadBalancing.LoadBalancer.TryNode` | cmd/loadbalancer/http_handler.go:73-87 | one attempt is the machine's run of its events |
| `LoadBalancing.LoadBalancer.TryNodes` | cmd/loadbalancer/http_handler.go:55-93 | the attempted nodes are a prefix of the snapshot no longer than the retry bound, and the state is the machine's after exactly those attempts, although the loop itself may change the routing list |
| `LoadBalancing.LoadBalancer.HandleHTTPRequest` | cmd/loadbalancer/http_handler.go:45-98 | at most one response, and which: copied from the last tried node on success, none or a gateway timeout on a timeout, bad gateway when all failed |
| `LoadBalancing.LoadBalancer.HTTPReply` | cmd/loadbalancer/http_handler.go:62-97 | the client gets the answer of the first node with a status of 200 to 399 within the retry bound if and only if there is one in time, bad gateway only after the bound or the list is used up, and otherwise nothing or a gateway timeout by which limit was met |
| `LoadBalancing.LoadBalancer.ConnectToUpstreamWebSocket` | cmd/loadbalancer/websocket_handler.go:76-137 | selects the first node that accepts, and every node before it has failed one dial |
| `LoadBalancing.LoadBalancer.HandleWebSocket` | cmd/loadbalancer/websocket_handler.go:14-73 | a path outside the whitelist is forbidden and reaches no node; otherwise the reply is unavailable without healthy nodes, bad gateway when every dial fails, and the connection to the first node that accepts, which alone is counted, if the client is upgraded |
| `LoadBalancing.LoadBalancer.WebSocketReply` | cmd/loadbalancer/websocket_handler.go:31-51 | unavailable if and only if no node is listed, bad gateway if and only if every listed node refuses, and otherwise the first node that accepts |
| `LoadBalancing.LoadBalancer.ServeHTTP` | cmd/loadbalancer/http_handler.go:16-42 | every request is checked against the whitelist before it reaches a node, HTTP and WebSocket alike |
| `Requests.RetryLoopDetermined` | cmd/loadbalancer/http_handler.go:55-97 | the loop can stop at one place only, within the retry bound and the snapshot; it ends in success if and only if some attempt within both is the first with a status of 200 to 399, all in time, and when all failed the bound or the snapshot is used up |
| `Requests.StatusEvents` | cmd/loadbalancer/http_handler.go:80-87 | a status of 200 to 399 is an answer, one of 500 or more a server error, and any other status neither |
| `Accounting.RequestAccounts` | cmd/loadbalancer/http_handler.go:126-172 | after the first k attempts of a request in any reachable state exactly the first k listed nodes have one request more, exactly those of them that answered 500 or more have one failure more, and a node that answered has no errors |
| `Accounting.WebSocketAccounts` | cmd/loadbalancer/websocket_handler.go:55-90 | a WebSocket request costs each node dialled in vain one failure, and one request is counted on the node it is established with and on no other |
| `Requests.AttemptsUseSnapshot` | cmd/loadbalancer/http_handler.go:53-97 | a request touches only nodes of its snapshot |
| `Requests.HandlersStayEnabled` | cmd/loadbalancer/http_handler.go:53-97 | every event of a request is enabled whatever has happened since its snapshot |
| `RateWindow.RefinesHistory` | cmd/ratelimit/ratelimit.go:40-92 | for a window covered by the sweep age, over every run of requests and sweeps with a non-decreasing clock, a request is admitted if and only if fewer than the limit of all requests ever admitted for that client are inside the window |
| `RateWindow.RefinementIff` | cmd/ratelimit/ratelimit.go:79-92 | that holds on every run if and only if the window is at most the sweep age plus one nanosecond |
| `RateWindow.SweptTooEarly` | cmd/ratelimit/ratelimit.go:83-87 | for every longer window, the run that admits one request too many |
| `RateWindow.RateBound` | cmd/ratelimit/ratelimit.go:58-75 | for a window covered by the sweep age, an interval of k windows, open on either side, holds at most k times the limit of admitted requests |
| `RateWindow.RateBoundIff` | cmd/ratelimit/ratelimit.go:58-92 | that bound holds on every run if and only if the window is at most the sweep age plus one nanosecond |
| `RateWindow.OverrunAdmits` | cmd/ratelimit/ratelimit.go:83-87 | for every longer window, the run that admits one request too many within one window |
| `RateWindow.PruningKeepsSuffix` | cmd/ratelimit/ratelimit.go:58-66 | pruning a sorted bucket drops a prefix of expired entries and keeps the rest |
| `RateWindow.BucketsBounded` | cmd/ratelimit/ratelimit.go:56-75 | in every run, whatever the window, buckets are sorted and hold at most the limit |
| `RateWindow.ClientsAreIsolated` | cmd/ratelimit/ratelimit.go:46-56 | for a window covered by the sweep age, what a client is admitted depends on its own requests only |
| `RateWindow.IsolationIff` | cmd/ratelimit/ratelimit.go:46-92 | that holds on every run if and only if the window is at most the sweep age plus one nanosecond |
| `RateLimiting.Compact` | cmd/ratelimit/ratelimit.go:60-66 | moves the entries later than the cutoff to the front of the array, in place and in order, the write cursor never passing the read cursor |
| `RateLimiting.ClientBucket.Prune` | cmd/ratelimit/ratelimit.go:58-66 | leaves exactly the entries of the bucket later than the cutoff |
| `RateLimiting.ClientBucket.Append` | cmd/ratelimit/ratelimit.go:74 | appends in place while there is room and into a new array otherwise |
| `RateLimiting.ClientBucket.Serve` | cmd/ratelimit/ratelimit.go:56-75 | prunes, then admits and records the request if and only if there is room |
| `RateLimiting.RateLimiter.constructor` | cmd/ratelimit/ratelimit.go:25-37 | no buckets, and a sweep age of five minutes |
| `RateLimiting.ConstructedIff` | cmd/ratelimit/ratelimit.go:83-87 | for the limiter as it is constructed, agreement with the full history, the rate bound and the isolation of clients hold on every run if and only if the window is at most 300,000,000,001 nanoseconds |
| `RateLimiting.DefaultWindow` | cmd/ratelimit/ratelimit.go:40-92 | with the default window of one minute the constructed limiter agrees with the full history on every run |
| `RateLimiting.SweepKeeps` | cmd/ratelimit/ratelimit.go:83-87 | a sweep keeps exactly the clients seen within the last 300,000,000,000 nanoseconds |
| `RateLimiting.RateLimiter.Allow` | cmd/ratelimit/ratelimit.go:40-76 | updates only the client's own bucket, by the value model's step, and answers as it does |
| `RateLimiting.RateLimiter.Cleanup` | cmd/ratelimit/ratelimit.go:79-92 | deletes exactly the buckets last seen before the cutoff |
| `Endpoints.SegmentsAgree` | cmd/validator/validator.go:18-112 | for every pattern of literals and `[^/]+` and every path, anchored matching by characters is matching segment by segment on the path split at slashes |
| `Endpoints.WildcardTakes` | cmd/validator/validator.go:18-112 | `[^/]+` takes any one or more characters other than the slash |
| `Endpoints.CompileWildcard` | cmd/validator/validator.go:114-119 | a pattern text that starts with `[^/]+` matches one or more characters other than the slash and then what the rest of the text matches |
| `Endpoints.CompileLiteral` | cmd/validator/validator.go:114-119 | any other pattern text matches its first character literally and then what the rest matches |
| `Endpoints.NoWildcard` | cmd/validator/validator.go:20-80 | a pattern text without wildcards matches itself and nothing else |
| `Endpoints.OneWildcard` | cmd/validator/validator.go:21-111 | a pattern text with one wildcard matches exactly the texts with a non-empty slash-free identifier in its place |
| `Endpoints.CompileRenders` | cmd/validator/validator.go:114-119 | compiling drops no character of the pattern text |
| `Endpoints.SplitJoins` | cmd/validator/validator.go:18-112 | splitting gives slash-free parts, and joining them gives the path back |
| `Endpoints.TextMatches` | cmd/validator/validator.go:18-112 | a literal segment matches itself and nothing else |
| `Endpoints.WildcardFits` | cmd/validator/validator.go:18-112 | a wildcard segment allows every part that is not empty |
| `Endpoints.FitsMatches` | cmd/validator/validator.go:18-112 | on a slash-free part any segment, however it mixes text and wildcards, allows what it matches by characters |
| `Endpoints.AcceptedByCharacters` | cmd/validator/validator.go:127-147 | for every table, the language by segments is the language by characters |
| `Whitelist.AcceptsFilled` | cmd/validator/validator.go:127-147 | every table accepts each of its one-wildcard patterns with any identifier in place of the wildcard |
| `Whitelist.Genesis` | cmd/validator/validator.go:20 | the table accepts the genesis path |
| `Whitelist.StateRoot` | cmd/validator/validator.go:21 | the table accepts the root of every state |
| `Whitelist.StateValidator` | cmd/validator/validator.go:25 | the table accepts every validator of every state |
| `Whitelist.Peer` | cmd/validator/validator.go:76 | the table accepts every peer |
| `Whitelist.ProduceBlockV3` | cmd/validator/validator.go:103 | the table accepts block production by version 3 for every slot |
| `Whitelist.VersionsOnly` | cmd/validator/validator.go:18-112 | whatever the table accepts has a normal form under version 1, 2 or 3 of `/eth` |
| `Endpoints.NormalisedCuts` | cmd/validator/validator.go:128-132 | normalising cuts exactly the white space at both ends and then the trailing slashes |
| `Endpoints.SpacesAre` | cmd/validator/validator.go:129 | the 25 code points that count as white space |
| `Endpoints.SlashesIff` | cmd/validator/validator.go:128-132 | appending slashes leaves the normal form alone if and only if the path does not end in white space or is blank |
| `Endpoints.SlashesKeepVerdict` | cmd/validator/validator.go:127-147 | for a path without trailing white space, any number of appended slashes leaves the verdict alone |
| `Validation.BeaconEndpointValidator.constructor` | cmd/validator/validator.go:114-123 | every pattern of the table is compiled, in order |
| `Validation.BeaconEndpointValidator.IsValidBeaconEndpoint` | cmd/validator/validator.go:127-147 | accepts exactly the paths whose normal form some pattern allows segment by segment |
| `Validation.BeaconEndpointValidator.GetValidationError` | cmd/validator/validator.go:150-155 | an error, naming the path as given, exactly for the paths not accepted |
| `DnsModel.NoStaleAnswer` | cmd/beaconnode/dns_cache.go:27-55 | over every run, concurrent misses included, a hit uses the latest stored answer for the host, no older than the time to live plus the lateness of timers |
| `DnsModel.KeptForItsTime` | cmd/beaconnode/dns_cache.go:46-52 | an entry is still there while its time to live has not passed, over every continuation that stores nothing for the host, unless a timer of an earlier answer is pending |
| `DnsModel.ReachableInv` | cmd/beaconnode/dns_cache.go:42-52 | every stored answer has its own delete pending, and no timer is overdue by more than the lateness |
| `DnsModel.TimersAreConserved` | cmd/beaconnode/dns_cache.go:37-52 | every stored answer has one timer that fires once, and every miss is settled once |
| `DnsModel.RemovedEarlyIff` | cmd/beaconnode/dns_cache.go:46-52 | an entry can be deleted before its time without being overwritten if and only if a timer of an earlier answer for the host is pending |
| `DnsModel.LivesItsTime` | cmd/beaconnode/dns_cache.go:46-52 | without such a timer the entry lasts its whole time over every continuation that stores nothing for the host |
| `DnsModel.ConcurrentMisses` | cmd/beaconnode/dns_cache.go:37-52 | two lookups that miss together leave such a timer |
| `DnsCaching.DnsCache.Lookup` | cmd/beaconnode/dns_cache.go:27-35 | a stored non-empty answer is a hit, anything else a miss |
| `DnsCaching.DnsCache.Store` | cmd/beaconnode/dns_cache.go:42-52 | overwrites the host's entry and schedules one delete |
| `DnsCaching.DnsCache.Expire` | cmd/beaconnode/dns_cache.go:46-52 | deletes whatever is stored for the host |
| `DnsCaching.DnsCache.Dial` | cmd/beaconnode/dns_cache.go:57-66 | connects to the first address that accepts, or all refuse |
| `DnsCaching.DnsCache.Connect` | cmd/beaconnode/dns_cache.go:21-67 | a hit resolves nothing and stores nothing, a failed lookup stores nothing and dials nothing, an answer is stored and dialled in order |

## Left out

- Reverse proxying, transports, sockets, JSON and the pumping of WebSocket messages: an attempt is an arbitrary status, a dial and an upgrade an arbitrary success, a health check an arbitrary verdict.
- Real time: the clock of the rate limiter and the DNS cache is a parameter, a request timeout an arbitrary flag of each attempt, and the ticker that starts rounds and sweeps is any sequence of them.
- Interleavings inside one error step, between raising the priority and taking the lock that guards the list, inside one verdict and inside one commit are not modelled: each of them is one step. The same holds for the body of `Allow`, which the program locks.
- `LoadBalancing.LoadBalancer.SortByPriority`: returns an ordered copy where the library sort works in place; nobody else holds the slice at that point.
- `LoadBalancing.LoadBalancer.HandleHTTPRequest`: one whole call with no other call between its attempts; calls that interleave are runs of the machine, for which the theorems about `Run` hold.
- `LoadBalancing.LoadBalancer.HandleWebSocket`: likewise one whole call, and it ends where the connection is established; what the upgrader itself answers when the upgrade fails is not modelled.
- The test that a priority is below the largest machine integer (`cmd/loadbalancer/health_check.go:341`) and 64-bit wrap-around of counters: numbers are unbounded.
- Regular expressions beyond literals and `[^/]+`: the table uses nothing else, and the anchors are left out of the table because every pattern has both.
- Client addresses are opaque, so the parsing of forwarding headers is not modelled; neither is splitting a port off a dialled address.
- The `IsHealthy` test of a node and the getters of its counters (`cmd/beaconnode/node.go:55-95`): they only read, and `AtomicRuns.DemotedAtThreshold` says what `IsHealthy` would answer for a primary.
- Logging, metrics, configuration loading, CORS headers, the health endpoints and start-up wiring: no effect on the state above.
- The statistics of the benchmark and stress programs.
