/**
 The sliding-window rate limiter on values: pruned buckets and a periodic sweep, against the
 full history of admitted requests. Times are in nanoseconds.
 */
module RateWindow {

  /** At most `rps` requests in any `window`; a bucket not used for longer than `age` is swept. */
  datatype Limit = Limit(rps: nat, window: int, age: nat)

  /** Request times, the latest one added last. */
  datatype Times = Empty | Add(earlier: Times, time: int)

  datatype Bucket = Bucket(requests: Times, lastSeen: int)

  /** A client, known by its address. */
  datatype Client = Client(address: string)

  type Clients = map<Client, Bucket>

  datatype Call = Allow(ip: Client, now: int) | Sweep(now: int)

  /** A run of the limiter: the calls it has served. */
  datatype Calls = None | Then(before: Calls, last: Call)

  function Size(times: Times): nat {
    match times
    case Empty => 0
    case Add(earlier, _) => Size(earlier) + 1
  }

  /** The entries later than `cutoff`, in order. */
  function Later(times: Times, cutoff: int): Times {
    match times
    case Empty => Empty
    case Add(earlier, t) => if t > cutoff then Add(Later(earlier, cutoff), t) else Later(earlier, cutoff)
  }

  function BucketOf(m: Clients, ip: Client): Times {
    if ip in m then m[ip].requests else Empty
  }

  predicate Admits(lim: Limit, m: Clients, ip: Client, now: int) {
    Size(Later(BucketOf(m, ip), now - lim.window)) < lim.rps
  }

  /** The bucket left by a request at `now`, from the old entries. */
  function Served(lim: Limit, entries: Times, now: int): Bucket {
    var kept := Later(entries, now - lim.window);
    Bucket(if Size(kept) < lim.rps then Add(kept, now) else kept, now)
  }

  function AfterAllow(lim: Limit, m: Clients, ip: Client, now: int): Clients {
    m[ip := Served(lim, BucketOf(m, ip), now)]
  }

  function AfterSweep(lim: Limit, m: Clients, now: int): Clients {
    map ip | ip in m && m[ip].lastSeen >= now - lim.age :: m[ip]
  }

  function AfterCall(lim: Limit, m: Clients, c: Call): Clients {
    match c
    case Allow(ip, now) => AfterAllow(lim, m, ip, now)
    case Sweep(now) => AfterSweep(lim, m, now)
  }

  function After(lim: Limit, calls: Calls): Clients {
    match calls
    case None => map[]
    case Then(before, c) => AfterCall(lim, After(lim, before), c)
  }

  /** Every request of `ip` the limiter has ever admitted; nothing is pruned or swept. */
  function History(lim: Limit, calls: Calls, ip: Client): Times {
    match calls
    case None => Empty
    case Then(before, c) =>
      if c.Allow? && c.ip == ip && Admits(lim, After(lim, before), ip, c.now)
      then Add(History(lim, before, ip), c.now) else History(lim, before, ip)
  }

  /** The last call is not later than `t`. */
  predicate Latest(calls: Calls, t: int) {
    calls.Then? ==> calls.last.now <= t
  }

  /** The clock does not run backwards. */
  predicate Chronological(calls: Calls) {
    calls.Then? ==> Chronological(calls.before) && Latest(calls.before, calls.last.now)
  }

  // ---------------------------------------------------------------- request times

  predicate AllBy(times: Times, t: int) {
    times.Add? ==> AllBy(times.earlier, t) && times.time <= t
  }

  predicate Sorted(times: Times) {
    times.Add? ==> Sorted(times.earlier) && AllBy(times.earlier, times.time)
  }

  function Concat(a: Times, b: Times): Times {
    match b
    case Empty => a
    case Add(earlier, t) => Add(Concat(a, earlier), t)
  }

  lemma {:induction false} AllByLater(times: Times, t: int, u: int)
    requires AllBy(times, t) && t <= u
    ensures AllBy(times, u)
  {
    if times.Add? {
      AllByLater(times.earlier, t, u);
    }
  }

  lemma {:induction false} LaterTwice(times: Times, c: int, d: int)
    requires c <= d
    ensures Later(Later(times, c), d) == Later(times, d)
  {
    if times.Add? {
      LaterTwice(times.earlier, c, d);
    }
  }

  lemma {:induction false} NoneLater(times: Times, cutoff: int)
    requires AllBy(times, cutoff)
    ensures Later(times, cutoff) == Empty
  {
    if times.Add? {
      NoneLater(times.earlier, cutoff);
    }
  }

  /** Pruning a sorted bucket keeps a suffix of it and drops only expired entries. */
  lemma {:induction false} PruningKeepsSuffix(times: Times, cutoff: int) returns (dropped: Times)
    requires Sorted(times)
    ensures times == Concat(dropped, Later(times, cutoff)) && AllBy(dropped, cutoff)
    ensures Sorted(Later(times, cutoff)) && Size(Later(times, cutoff)) <= Size(times)
  {
    if times.Empty? {
      dropped := Empty;
    } else if times.time > cutoff {
      dropped := PruningKeepsSuffix(times.earlier, cutoff);
      LaterAllBy(times.earlier, cutoff, times.time);
    } else {
      AllByLater(times.earlier, times.time, cutoff);
      NoneLater(times.earlier, cutoff);
      dropped := times;
    }
  }

  lemma {:induction false} LaterAllBy(times: Times, cutoff: int, t: int)
    requires AllBy(times, t)
    ensures AllBy(Later(times, cutoff), t)
  {
    if times.Add? {
      LaterAllBy(times.earlier, cutoff, t);
    }
  }

  // ---------------------------------------------------------------- refinement

  /** What a limiter that never forgets admits for `ip`. */
  function Reference(lim: Limit, calls: Calls, ip: Client): Times {
    match calls
    case None => Empty
    case Then(before, c) => NextReference(lim, Reference(lim, before, ip), ip, c)
  }

  function NextReference(lim: Limit, h: Times, ip: Client, c: Call): Times {
    if c.Allow? && c.ip == ip && Size(Later(h, c.now - lim.window)) < lim.rps then Add(h, c.now) else h
  }

  /** The window is not longer than the sweep age, up to the nanosecond that the strict
      comparison of the sweep leaves. */
  predicate Covered(lim: Limit) {
    0 < lim.window <= lim.age + 1
  }

  /** What a bucket, or its absence, says about the full history at time `t`. */
  ghost predicate Agrees(lim: Limit, m: Clients, h: Times, ip: Client, t: int) {
    if ip in m then
      && m[ip].lastSeen <= t
      && AllBy(h, m[ip].lastSeen)
      && m[ip].requests == Later(h, m[ip].lastSeen - lim.window)
    else
      AllBy(h, t - lim.age - 1)
  }

  lemma AgreesNow(lim: Limit, m: Clients, h: Times, ip: Client, t: int, now: int)
    requires Covered(lim) && Agrees(lim, m, h, ip, t) && t <= now
    ensures Later(BucketOf(m, ip), now - lim.window) == Later(h, now - lim.window)
    ensures AllBy(h, now)
  {
    if ip in m {
      LaterTwice(h, m[ip].lastSeen - lim.window, now - lim.window);
      AllByLater(h, m[ip].lastSeen, now);
    } else {
      AllByLater(h, t - lim.age - 1, now - lim.window);
      NoneLater(h, now - lim.window);
      AllByLater(h, t - lim.age - 1, now);
    }
  }

  lemma AgreesCall(lim: Limit, m: Clients, h: Times, ip: Client, c: Call)
    requires Covered(lim) && Agrees(lim, m, h, ip, c.now)
    ensures Agrees(lim, AfterCall(lim, m, c), NextReference(lim, h, ip, c), ip, c.now)
  {
    if c.Allow? && c.ip == ip {
      AgreesNow(lim, m, h, ip, c.now, c.now);
    } else if ip in m && ip !in AfterCall(lim, m, c) {
      AllByLater(h, m[ip].lastSeen, c.now - lim.age - 1);
    }
  }

  lemma AgreesLonger(lim: Limit, m: Clients, h: Times, ip: Client, t: int, u: int)
    requires Agrees(lim, m, h, ip, t) && t <= u
    ensures Agrees(lim, m, h, ip, u)
  {
    if ip !in m {
      AllByLater(h, t - lim.age - 1, u - lim.age - 1);
    }
  }

  lemma {:induction false} AgreesAfter(lim: Limit, calls: Calls, ip: Client, t: int)
    requires Covered(lim) && Chronological(calls) && Latest(calls, t)
    ensures Agrees(lim, After(lim, calls), Reference(lim, calls, ip), ip, t)
    ensures History(lim, calls, ip) == Reference(lim, calls, ip)
  {
    if calls.Then? {
      var p, c := calls.before, calls.last;
      AgreesAfter(lim, p, ip, c.now);
      AgreesNow(lim, After(lim, p), Reference(lim, p, ip), ip, c.now, c.now);
      AgreesCall(lim, After(lim, p), Reference(lim, p, ip), ip, c);
      AgreesLonger(lim, After(lim, calls), Reference(lim, calls, ip), ip, c.now, t);
    }
  }

  /** The pruned and swept limiter admits exactly what the one that never forgets does: a
      request gets through exactly when fewer than `rps` of all the requests ever admitted for
      that client are inside the window. */
  lemma RefinesHistory(lim: Limit, calls: Calls, ip: Client, now: int)
    requires Covered(lim) && Chronological(calls) && Latest(calls, now)
    ensures History(lim, calls, ip) == Reference(lim, calls, ip)
    ensures Admits(lim, After(lim, calls), ip, now) <==>
      Size(Later(History(lim, calls, ip), now - lim.window)) < lim.rps
  {
    AgreesAfter(lim, calls, ip, now);
    AgreesNow(lim, After(lim, calls), Reference(lim, calls, ip), ip, now, now);
  }

  // ---------------------------------------------------------------- where the refinement ends

  ghost predicate AgreesWithHistory(lim: Limit, calls: Calls, ip: Client, now: int) {
    Chronological(calls) && Latest(calls, now) ==>
      (Admits(lim, After(lim, calls), ip, now) <==>
        Size(Later(History(lim, calls, ip), now - lim.window)) < lim.rps)
  }

  function Burst(ip: Client, n: nat): Calls {
    if n == 0 then None else Then(Burst(ip, n - 1), Allow(ip, 0))
  }

  predicate AllAfter(times: Times, t: int) {
    times.Add? ==> AllAfter(times.earlier, t) && times.time > t
  }

  lemma {:induction false} AllKept(times: Times, t: int, cutoff: int)
    requires AllAfter(times, t) && cutoff <= t
    ensures Later(times, cutoff) == times
  {
    if times.Add? {
      AllKept(times.earlier, t, cutoff);
    }
  }

  lemma {:induction false} BurstFills(lim: Limit, ip: Client, n: nat)
    requires lim.window > 0 && n <= lim.rps
    ensures var calls, h := Burst(ip, n), History(lim, Burst(ip, n), ip);
      && Chronological(calls) && Latest(calls, 0)
      && Size(h) == n && AllAfter(h, -1) && BucketOf(After(lim, calls), ip) == h
      && (n > 0 ==> ip in After(lim, calls) && After(lim, calls)[ip].lastSeen == 0)
  {
    if n > 0 {
      BurstFills(lim, ip, n - 1);
      AllKept(History(lim, Burst(ip, n - 1), ip), -1, 0 - lim.window);
    }
  }

  lemma SweptTooEarly(lim: Limit, ip: Client)
    requires lim.rps > 0 && lim.window > lim.age + 1
    ensures var now := lim.age + 1;
      !AgreesWithHistory(lim, Then(Burst(ip, lim.rps), Sweep(now)), ip, now)
  {
    var now := lim.age + 1;
    BurstFills(lim, ip, lim.rps);
    AllKept(History(lim, Burst(ip, lim.rps), ip), -1, now - lim.window);
    assert ip !in AfterSweep(lim, After(lim, Burst(ip, lim.rps)), now);
  }

  /** The limiter agrees with the full history on every run exactly when the window is covered
      by the sweep age. */
  lemma RefinementIff(lim: Limit, ip: Client)
    requires lim.window > 0 && lim.rps > 0
    ensures (forall calls: Calls, now: int :: AgreesWithHistory(lim, calls, ip, now)) <==> lim.window <= lim.age + 1
  {
    if lim.window <= lim.age + 1 {
      forall calls: Calls, now: int ensures AgreesWithHistory(lim, calls, ip, now) {
        if Chronological(calls) && Latest(calls, now) {
          RefinesHistory(lim, calls, ip, now);
        }
      }
    } else {
      SweptTooEarly(lim, ip);
    }
  }

  // ---------------------------------------------------------------- rate bound

  /** How many entries lie in the half-open interval from `a` to `b`. */
  function Within(times: Times, a: int, b: int): nat {
    match times
    case Empty => 0
    case Add(earlier, t) => Within(earlier, a, b) + if a <= t < b then 1 else 0
  }

  /** Each entry found fewer than `rps` earlier ones in its window. */
  predicate Throttled(lim: Limit, h: Times) {
    h.Add? ==> Throttled(lim, h.earlier) && Size(Later(h.earlier, h.time - lim.window)) < lim.rps
  }

  lemma {:induction false} ReferenceThrottled(lim: Limit, calls: Calls, ip: Client)
    ensures Throttled(lim, Reference(lim, calls, ip))
  {
    if calls.Then? {
      ReferenceThrottled(lim, calls.before, ip);
    }
  }

  lemma {:induction false} WithinLater(times: Times, a: int, b: int, cutoff: int)
    requires cutoff < a
    ensures Within(times, a, b) <= Size(Later(times, cutoff))
  {
    if times.Add? {
      WithinLater(times.earlier, a, b, cutoff);
    }
  }

  lemma {:induction false} OneWindow(lim: Limit, h: Times, a: int)
    requires Throttled(lim, h)
    ensures Within(h, a, a + lim.window) <= lim.rps
  {
    if h.Add? {
      OneWindow(lim, h.earlier, a);
      if a <= h.time < a + lim.window {
        WithinLater(h.earlier, a, a + lim.window, h.time - lim.window);
      }
    }
  }

  lemma {:induction false} WithinSplits(times: Times, a: int, b: int, c: int)
    requires a <= b <= c
    ensures Within(times, a, c) == Within(times, a, b) + Within(times, b, c)
  {
    if times.Add? {
      WithinSplits(times.earlier, a, b, c);
    }
  }

  lemma {:induction false} ManyWindows(lim: Limit, h: Times, a: int, k: nat)
    requires Throttled(lim, h) && lim.window > 0
    ensures Within(h, a, a + k * lim.window) <= k * lim.rps
  {
    if k == 0 {
      WithinSplits(h, a, a, a);
    } else {
      ManyWindows(lim, h, a, k - 1);
      var b := a + (k - 1) * lim.window;
      assert (k - 1) * lim.window >= 0;
      assert b + lim.window == a + k * lim.window;
      assert (k - 1) * lim.rps + lim.rps == k * lim.rps;
      OneWindow(lim, h, b);
      WithinSplits(h, a, b, b + lim.window);
    }
  }

  /** How many entries are later than `a` and not later than `b`. */
  function WithinAfter(times: Times, a: int, b: int): nat {
    match times
    case Empty => 0
    case Add(earlier, t) => WithinAfter(earlier, a, b) + if a < t <= b then 1 else 0
  }

  lemma {:induction false} WithinShifts(times: Times, a: int, b: int)
    ensures WithinAfter(times, a, b) == Within(times, a + 1, b + 1)
  {
    if times.Add? {
      WithinShifts(times.earlier, a, b);
    }
  }

  /** No half-open interval as long as `k` windows, closed on either side, holds more than
      `k * rps` admitted requests of one client, over every run, sweeps and equal timestamps
      included. */
  lemma RateBound(lim: Limit, calls: Calls, ip: Client, a: int, k: nat, t: int)
    requires Covered(lim) && Chronological(calls) && Latest(calls, t)
    ensures Within(History(lim, calls, ip), a, a + k * lim.window) <= k * lim.rps
    ensures WithinAfter(History(lim, calls, ip), a, a + k * lim.window) <= k * lim.rps
  {
    AgreesAfter(lim, calls, ip, t);
    ReferenceThrottled(lim, calls, ip);
    ManyWindows(lim, Reference(lim, calls, ip), a, k);
    ManyWindows(lim, Reference(lim, calls, ip), a + 1, k);
    WithinShifts(Reference(lim, calls, ip), a, a + k * lim.window);
  }

  // ---------------------------------------------------------------- where the bound ends

  /** The bucket is filled, swept too early, and the client sends once more. */
  function Overrun(lim: Limit, ip: Client): Calls {
    Then(Then(Burst(ip, lim.rps), Sweep(lim.age + 1)), Allow(ip, lim.age + 1))
  }

  lemma {:induction false} AllWithin(times: Times, a: int, b: int)
    requires AllAfter(times, a - 1) && AllBy(times, b - 1)
    ensures Within(times, a, b) == Size(times)
  {
    if times.Add? {
      AllWithin(times.earlier, a, b);
    }
  }

  lemma OverrunAdmits(lim: Limit, ip: Client)
    requires lim.rps > 0 && lim.window > lim.age + 1
    ensures Chronological(Overrun(lim, ip))
    ensures var h := History(lim, Overrun(lim, ip), ip);
      Size(h) == lim.rps + 1 && Within(h, 0, lim.window) == lim.rps + 1
  {
    var burst, now := Burst(ip, lim.rps), lim.age + 1;
    BurstFills(lim, ip, lim.rps);
    BucketsBounded(lim, burst, ip, 0);
    var h := History(lim, burst, ip);
    AllByLater(h, 0, lim.window - 1);
    AllWithin(h, 0, lim.window);
    assert ip !in AfterSweep(lim, After(lim, burst), now);
    assert History(lim, Then(burst, Sweep(now)), ip) == h;
  }

  ghost predicate Bounded(lim: Limit, calls: Calls, ip: Client, a: int, k: nat) {
    Chronological(calls) ==> Within(History(lim, calls, ip), a, a + k * lim.window) <= k * lim.rps
  }

  /** The rate bound holds on every run exactly when the window is covered by the sweep age. */
  lemma RateBoundIff(lim: Limit, ip: Client)
    requires lim.window > 0 && lim.rps > 0
    ensures (forall calls: Calls, a: int, k: nat :: Bounded(lim, calls, ip, a, k)) <==> lim.window <= lim.age + 1
  {
    if lim.window <= lim.age + 1 {
      forall calls: Calls, a: int, k: nat ensures Bounded(lim, calls, ip, a, k) {
        if Chronological(calls) {
          RateBound(lim, calls, ip, a, k, if calls.Then? then calls.last.now else 0);
        }
      }
    } else {
      OverrunAdmits(lim, ip);
      assert !Bounded(lim, Overrun(lim, ip), ip, 0, 1);
    }
  }

  // ---------------------------------------------------------------- buckets and clients

  /** Buckets stay sorted and never hold more than `rps` entries, whatever the window. */
  lemma {:induction false} BucketsBounded(lim: Limit, calls: Calls, ip: Client, t: int)
    requires Chronological(calls) && Latest(calls, t)
    ensures var b := BucketOf(After(lim, calls), ip); Size(b) <= lim.rps && Sorted(b) && AllBy(b, t)
  {
    if calls.Then? {
      var b, c := BucketOf(After(lim, calls.before), ip), calls.last;
      BucketsBounded(lim, calls.before, ip, c.now);
      if c.Allow? && c.ip == ip {
        var dropped := PruningKeepsSuffix(b, c.now - lim.window);
        LaterAllBy(b, c.now - lim.window, c.now);
      }
      AllByLater(BucketOf(After(lim, calls), ip), c.now, t);
    }
  }

  /** The requests of one client. */
  function CallsOf(calls: Calls, ip: Client): Calls {
    match calls
    case None => None
    case Then(before, c) =>
      if c.Allow? && c.ip == ip then Then(CallsOf(before, ip), c) else CallsOf(before, ip)
  }

  lemma {:induction false} CallsOfChronological(calls: Calls, ip: Client, t: int)
    requires Chronological(calls) && Latest(calls, t)
    ensures Chronological(CallsOf(calls, ip)) && Latest(CallsOf(calls, ip), t)
  {
    if calls.Then? {
      CallsOfChronological(calls.before, ip, calls.last.now);
    }
  }

  lemma {:induction false} ReferenceIsolated(lim: Limit, calls: Calls, ip: Client)
    ensures Reference(lim, calls, ip) == Reference(lim, CallsOf(calls, ip), ip)
  {
    if calls.Then? {
      ReferenceIsolated(lim, calls.before, ip);
    }
  }

  /** Neither other clients nor sweeps change what is admitted for a client. */
  lemma ClientsAreIsolated(lim: Limit, calls: Calls, ip: Client, t: int)
    requires Covered(lim) && Chronological(calls) && Latest(calls, t)
    ensures History(lim, calls, ip) == History(lim, CallsOf(calls, ip), ip)
  {
    CallsOfChronological(calls, ip, t);
    AgreesAfter(lim, calls, ip, t);
    AgreesAfter(lim, CallsOf(calls, ip), ip, t);
    ReferenceIsolated(lim, calls, ip);
  }

  lemma {:induction false} BurstOfOne(ip: Client, n: nat)
    ensures CallsOf(Burst(ip, n), ip) == Burst(ip, n)
  {
    if n > 0 {
      BurstOfOne(ip, n - 1);
    }
  }

  lemma SweepMatters(lim: Limit, ip: Client)
    requires lim.rps > 0 && lim.window > lim.age + 1
    ensures History(lim, CallsOf(Overrun(lim, ip), ip), ip) != History(lim, Overrun(lim, ip), ip)
  {
    var burst, now := Burst(ip, lim.rps), lim.age + 1;
    OverrunAdmits(lim, ip);
    BurstOfOne(ip, lim.rps);
    BurstFills(lim, ip, lim.rps);
    AllKept(History(lim, burst, ip), -1, now - lim.window);
    assert CallsOf(Overrun(lim, ip), ip) == Then(burst, Allow(ip, now));
    assert !Admits(lim, After(lim, burst), ip, now);
  }

  ghost predicate Isolated(lim: Limit, calls: Calls, ip: Client) {
    Chronological(calls) ==> History(lim, calls, ip) == History(lim, CallsOf(calls, ip), ip)
  }

  /** Clients are isolated on every run exactly when the window is covered by the sweep age. */
  lemma IsolationIff(lim: Limit, ip: Client)
    requires lim.window > 0 && lim.rps > 0
    ensures (forall calls: Calls :: Isolated(lim, calls, ip)) <==> lim.window <= lim.age + 1
  {
    if lim.window <= lim.age + 1 {
      forall calls: Calls ensures Isolated(lim, calls, ip) {
        if Chronological(calls) {
          ClientsAreIsolated(lim, calls, ip, if calls.Then? then calls.last.now else 0);
        }
      }
    } else {
      OverrunAdmits(lim, ip);
      SweepMatters(lim, ip);
      assert !Isolated(lim, Overrun(lim, ip), ip);
    }
  }
}
