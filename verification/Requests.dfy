/**
 Client requests: the retry loop over HTTP attempts and the WebSocket dial loop, as the events
 they send to the failover machine.
 */
module Requests {
  import opened FailoverModel
  import opened FailoverRuns

  /** What an HTTP attempt meets: the request timeout, or the status the node answers with. */
  datatype Attempt = Attempt(cancelled: bool, exhausted: bool, status: int)

  const SUCCESS_MIN := 200
  const SUCCESS_MAX := 400
  const SERVER_ERROR_MIN := 500

  predicate Succeeds(status: int) {
    SUCCESS_MIN <= status < SUCCESS_MAX
  }

  /** The machine events of one attempt. */
  function AttemptEvents(i: nat, status: int): seq<Event> {
    [Attempted(i)] +
      if Succeeds(status) then [Answered(i)]
      else if status >= SERVER_ERROR_MIN then [ServerError(i)]
      else []
  }

  function AttemptsEvents(snapshot: seq<nat>, attempts: seq<Attempt>): seq<Event>
    requires |snapshot| == |attempts|
  {
    if attempts == [] then []
    else
      var last := |attempts| - 1;
      AttemptsEvents(snapshot[..last], attempts[..last]) + AttemptEvents(snapshot[last], attempts[last].status)
  }

  /** The machine events of a WebSocket connection attempt over the nodes of a snapshot. */
  function DialEvents(snapshot: seq<nat>): (r: seq<Event>)
    ensures |r| == |snapshot|
  {
    seq(|snapshot|, k requires 0 <= k < |snapshot| => DialFailed(snapshot[k]))
  }

  /** The machine after the first `k` attempts of a request. */
  function AfterAttempts(cfg: Config, s: State, snapshot: seq<nat>, attempts: seq<Attempt>, k: nat): State
    requires k <= |snapshot| == |attempts|
  {
    Run(cfg, s, AttemptsEvents(snapshot[..k], attempts[..k]))
  }

  lemma NextAttempt(cfg: Config, s: State, snapshot: seq<nat>, attempts: seq<Attempt>, k: nat)
    requires k < |snapshot| == |attempts|
    ensures AfterAttempts(cfg, s, snapshot, attempts, k + 1)
      == Run(cfg, AfterAttempts(cfg, s, snapshot, attempts, k), AttemptEvents(snapshot[k], attempts[k].status))
  {
    assert snapshot[..k + 1][..k] == snapshot[..k];
    assert attempts[..k + 1][..k] == attempts[..k];
    RunConcat(cfg, s, AttemptsEvents(snapshot[..k], attempts[..k]), AttemptEvents(snapshot[k], attempts[k].status));
  }

  /** The machine after the first `k` dials of a WebSocket request have failed. */
  function AfterDials(cfg: Config, s: State, snapshot: seq<nat>, k: nat): State
    requires k <= |snapshot|
  {
    Run(cfg, s, DialEvents(snapshot[..k]))
  }

  lemma NextDial(cfg: Config, s: State, snapshot: seq<nat>, k: nat)
    requires k < |snapshot|
    ensures AfterDials(cfg, s, snapshot, k + 1) == Step(cfg, AfterDials(cfg, s, snapshot, k), DialFailed(snapshot[k]))
  {
    assert DialEvents(snapshot[..k + 1])[..k] == DialEvents(snapshot[..k]);
  }

  lemma {:induction false} AttemptsUseSnapshot(snapshot: seq<nat>, attempts: seq<Attempt>)
    requires |snapshot| == |attempts|
    ensures forall e :: e in AttemptsEvents(snapshot, attempts) ==> IsRequest(e) && e.i in snapshot
  {
    if attempts != [] {
      AttemptsUseSnapshot(snapshot[..|attempts| - 1], attempts[..|attempts| - 1]);
    }
  }

  /** None of the first `tried` attempts was a success or met a timeout. */
  predicate Proceeds(attempts: seq<Attempt>, tried: nat)
    requires tried <= |attempts|
  {
    forall j :: 0 <= j < tried ==>
      !Succeeds(attempts[j].status) && !attempts[j].cancelled && !attempts[j].exhausted
  }

  /** How a request ends. */
  datatype Ending = Success | Cancelled | OutOfTime | AllFailed

  /** A request stops after `tried` attempts: none of them but the last was a success, none met
      a timeout, and what comes next is a success just had, a timeout or the bound. */
  predicate Settles(attempts: seq<Attempt>, maxRetries: nat, tried: nat) {
    && tried <= maxRetries && tried <= |attempts|
    && (forall j :: 0 <= j < tried ==> !attempts[j].cancelled && !attempts[j].exhausted)
    && (forall j :: 0 <= j < tried - 1 ==> !Succeeds(attempts[j].status))
    && (|| (tried > 0 && Succeeds(attempts[tried - 1].status))
        || tried == maxRetries || tried == |attempts|
        || attempts[tried].cancelled || attempts[tried].exhausted)
  }

  function EndingAt(attempts: seq<Attempt>, maxRetries: nat, tried: nat): Ending
    requires tried <= |attempts|
  {
    if tried > 0 && Succeeds(attempts[tried - 1].status) then Success
    else if tried == maxRetries || tried == |attempts| then AllFailed
    else if attempts[tried].cancelled then Cancelled
    else OutOfTime
  }

  lemma SettlesOrProceeds(attempts: seq<Attempt>, maxRetries: nat, k: nat)
    requires k <= maxRetries && k <= |attempts| && Proceeds(attempts, k)
    ensures k == maxRetries || k == |attempts| ==>
      Settles(attempts, maxRetries, k) && EndingAt(attempts, maxRetries, k) == AllFailed
    ensures k < maxRetries && k < |attempts| ==>
      if attempts[k].cancelled || attempts[k].exhausted then
        && Settles(attempts, maxRetries, k)
        && EndingAt(attempts, maxRetries, k) == if attempts[k].cancelled then Cancelled else OutOfTime
      else if Succeeds(attempts[k].status) then
        Settles(attempts, maxRetries, k + 1) && EndingAt(attempts, maxRetries, k + 1) == Success
      else Proceeds(attempts, k + 1)
  {
  }

  lemma AttemptUnfolds(cfg: Config, s: State, i: nat, status: int)
    ensures Run(cfg, s, AttemptEvents(i, status)) ==
      var sent := Step(cfg, s, Attempted(i));
      if Succeeds(status) then Step(cfg, sent, Answered(i))
      else if status >= SERVER_ERROR_MIN then Step(cfg, sent, ServerError(i))
      else sent
  {
    var es := AttemptEvents(i, status);
    assert es[..1] == [Attempted(i)];
    assert [Attempted(i)][..0] == [];
    assert Run(cfg, s, [Attempted(i)]) == Step(cfg, s, Attempted(i));
  }

  /** The status alone decides which events an attempt sends. */
  lemma StatusEvents(i: nat, status: int)
    ensures AttemptEvents(i, status) ==
      if 200 <= status <= 399 then [Attempted(i), Answered(i)]
      else if status >= 500 then [Attempted(i), ServerError(i)]
      else [Attempted(i)]
  {
  }

  /** Attempt `k` is in time, and so is everything before it. */
  predicate InTime(attempts: seq<Attempt>, k: nat) {
    k < |attempts| && forall j :: 0 <= j <= k ==> !attempts[j].cancelled && !attempts[j].exhausted
  }

  lemma EarlierSuccess(attempts: seq<Attempt>, maxRetries: nat, a: nat, k: nat)
    requires Settles(attempts, maxRetries, a) && !EndingAt(attempts, maxRetries, a).Success?
    ensures !(k < maxRetries && InTime(attempts, k) && 200 <= attempts[k].status <= 399)
  {
  }

  /** The retry loop is determined by what the attempts meet. It stops at one place only, within
      the retry bound and the snapshot. It ends in success exactly when some attempt within both is
      the first with a status of 200 to 399, all of them in time, and then that is the last one
      tried; and when all failed the bound or the snapshot is used up. */
  lemma RetryLoopDetermined(attempts: seq<Attempt>, maxRetries: nat, a: nat, b: nat)
    requires Settles(attempts, maxRetries, a)
    ensures Settles(attempts, maxRetries, b) ==> a == b
    ensures a <= maxRetries && a <= |attempts|
    ensures EndingAt(attempts, maxRetries, a).Success? <==>
      exists k: nat :: k < maxRetries && InTime(attempts, k) && 200 <= attempts[k].status <= 399
        && forall j :: 0 <= j < k ==> !(200 <= attempts[j].status <= 399)
    ensures EndingAt(attempts, maxRetries, a).Success? ==>
      && a > 0 && 200 <= attempts[a - 1].status <= 399
      && forall j :: 0 <= j < a - 1 ==> !(200 <= attempts[j].status <= 399)
    ensures EndingAt(attempts, maxRetries, a).AllFailed? ==>
      && (a == maxRetries || a == |attempts|)
      && forall j :: 0 <= j < a ==> !(200 <= attempts[j].status <= 399)
    ensures EndingAt(attempts, maxRetries, a).Cancelled? ==> a < maxRetries && a < |attempts| && attempts[a].cancelled
    ensures EndingAt(attempts, maxRetries, a).OutOfTime? ==>
      a < maxRetries && a < |attempts| && !attempts[a].cancelled && attempts[a].exhausted
  {
    if EndingAt(attempts, maxRetries, a).Success? {
      assert InTime(attempts, a - 1);
    } else {
      forall k: nat ensures !(k < maxRetries && InTime(attempts, k) && 200 <= attempts[k].status <= 399) {
        EarlierSuccess(attempts, maxRetries, a, k);
      }
    }
  }

  /** Whatever happens after a handler took its snapshot, its next attempt is enabled. */
  lemma HandlersStayEnabled(cfg: Config, s: State, es: seq<Event>, later: seq<Event>, attempts: seq<Attempt>, e: Event)
    requires Started(s) && |attempts| == |Run(cfg, s, es).listed|
    requires e in AttemptsEvents(Run(cfg, s, es).listed, attempts)
    ensures Enabled(Run(cfg, s, es + later), e)
  {
    AttemptsUseSnapshot(Run(cfg, s, es).listed, attempts);
    SnapshotStaysUsable(cfg, s, es, later, e.i);
  }
}
