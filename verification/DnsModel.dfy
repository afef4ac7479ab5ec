/**
 The DNS cache as a state machine: lookups that miss, answers that come in and are stored, and
 one delayed delete for every stored answer. Lookups overlap freely.
 */
module DnsModel {

  type Address = string

  datatype Entry = Entry(ips: seq<Address>, inserted: int)

  /** A delete of the host's entry, whatever the entry is by then. */
  datatype Timer = Timer(host: string, due: int)

  /** `pending` are the lookups that have missed and wait for an answer. */
  datatype State = State(
    cache: map<string, Entry>, timers: multiset<Timer>, pending: multiset<string>, now: int)

  /** `late` bounds how long after its due time a timer may still fire. */
  datatype Settings = Settings(ttl: int, late: nat)

  datatype Event =
    | Missed(host: string)
    | Resolved(host: string, ips: seq<Address>)
    | Unresolved(host: string)
    | Expired(timer: Timer)
    | Waited(time: nat)

  datatype Run = Start | Then(before: Run, last: Event)

  /** When the delete of an entry is due; a sleep of a negative time ends at once. */
  function Due(c: Settings, e: Entry): int {
    if c.ttl > 0 then e.inserted + c.ttl else e.inserted
  }

  /** An empty answer is stored, but it is never used. */
  predicate Hit(s: State, host: string) {
    host in s.cache && s.cache[host].ips != []
  }

  predicate OnTime(c: Settings, t: Timer, now: int) {
    now <= t.due + c.late
  }

  predicate Enabled(c: Settings, s: State, e: Event) {
    match e
    case Missed(host) => !Hit(s, host)
    case Resolved(host, _) => host in s.pending
    case Unresolved(host) => host in s.pending
    case Expired(t) => t in s.timers && t.due <= s.now
    case Waited(time) => forall t :: t in s.timers ==> OnTime(c, t, s.now + time)
  }

  /** An event that is not enabled changes nothing. */
  function Step(c: Settings, s: State, e: Event): State {
    if !Enabled(c, s, e) then s else
    match e
    case Missed(host) => s.(pending := s.pending + multiset{host})
    case Resolved(host, ips) =>
      var entry := Entry(ips, s.now);
      s.(cache := s.cache[host := entry], timers := s.timers + multiset{Timer(host, Due(c, entry))},
         pending := s.pending - multiset{host})
    case Unresolved(host) => s.(pending := s.pending - multiset{host})
    case Expired(t) => s.(cache := s.cache - {t.host}, timers := s.timers - multiset{t})
    case Waited(time) => s.(now := s.now + time)
  }

  /** A lookup that misses and is then answered or not, with nothing in between. */
  lemma MissSettled(c: Settings, s: State, host: string, ips: seq<Address>)
    requires !Hit(s, host)
    ensures Enabled(c, Step(c, s, Missed(host)), Resolved(host, ips))
    ensures Step(c, Step(c, s, Missed(host)), Unresolved(host)) == s
    ensures Step(c, Step(c, s, Missed(host)), Resolved(host, ips)) == s.(
      cache := s.cache[host := Entry(ips, s.now)],
      timers := s.timers + multiset{Timer(host, s.now + if c.ttl > 0 then c.ttl else 0)})
  {
    assert s.pending + multiset{host} - multiset{host} == s.pending;
  }

  function RunFrom(c: Settings, s: State, run: Run): State {
    match run
    case Start => s
    case Then(before, e) => Step(c, RunFrom(c, s, before), e)
  }

  predicate Leads(c: Settings, s: State, run: Run, r: State) {
    r == RunFrom(c, s, run)
  }

  function After(c: Settings, run: Run): State {
    RunFrom(c, State(map[], multiset{}, multiset{}, 0), run)
  }

  /** The run leads from the empty cache to `s`. */
  ghost predicate Reached(c: Settings, run: Run, s: State) {
    s == After(c, run)
  }

  // ---------------------------------------------------------------- no answer is too old

  /** The timer of the stored answer is still pending. */
  predicate Guarded(c: Settings, s: State, host: string) {
    host in s.cache && Timer(host, Due(c, s.cache[host])) in s.timers && s.cache[host].inserted <= s.now
  }

  ghost predicate Inv(c: Settings, s: State) {
    && (forall host :: host in s.cache ==> Guarded(c, s, host))
    && (forall t :: t in s.timers ==> OnTime(c, t, s.now))
  }

  lemma StepKeepsGuarded(c: Settings, s: State, e: Event, host: string)
    requires host in s.cache ==> Guarded(c, s, host)
    ensures host in Step(c, s, e).cache ==> Guarded(c, Step(c, s, e), host)
  {
  }

  lemma StepKeepsOnTime(c: Settings, s: State, e: Event, t: Timer)
    requires Inv(c, s) && t in Step(c, s, e).timers
    ensures OnTime(c, t, Step(c, s, e).now)
  {
    if e.Resolved? && t !in s.timers {
      assert t == Timer(e.host, Due(c, Entry(e.ips, s.now)));
    }
  }

  lemma StepKeeps(c: Settings, s: State, e: Event)
    requires Inv(c, s)
    ensures Inv(c, Step(c, s, e))
  {
    var r := Step(c, s, e);
    forall host | host in r.cache ensures Guarded(c, r, host) {
      StepKeepsGuarded(c, s, e, host);
    }
    forall t | t in r.timers ensures OnTime(c, t, r.now) {
      StepKeepsOnTime(c, s, e, t);
    }
  }

  lemma {:induction false} ReachableInv(c: Settings, run: Run)
    ensures Inv(c, After(c, run))
  {
    if run.Then? {
      ReachableInv(c, run.before);
      StepKeeps(c, After(c, run.before), run.last);
    }
  }

  /** The answer stored last for a host. */
  function LastAnswer(c: Settings, run: Run, host: string): Entry {
    match run
    case Start => Entry([], 0)
    case Then(before, e) =>
      if e.Resolved? && e.host == host && Enabled(c, After(c, before), e)
      then Entry(e.ips, After(c, before).now) else LastAnswer(c, before, host)
  }

  lemma CachedStep(c: Settings, s: State, e: Event, host: string)
    requires host in Step(c, s, e).cache
    ensures Step(c, s, e).cache[host] ==
      if e.Resolved? && e.host == host && Enabled(c, s, e) then Entry(e.ips, s.now)
      else if host in s.cache then s.cache[host] else Entry([], 0)
    ensures host in s.cache || (e.Resolved? && e.host == host && Enabled(c, s, e))
  {
  }

  lemma {:induction false} CachedIsLast(c: Settings, run: Run, host: string)
    requires host in After(c, run).cache
    ensures After(c, run).cache[host] == LastAnswer(c, run, host)
  {
    if run.Then? {
      CachedStep(c, After(c, run.before), run.last, host);
      if host in After(c, run.before).cache {
        CachedIsLast(c, run.before, host);
      }
    }
  }

  /** A hit uses the latest answer stored for the host, and that answer is never older than the
      time to live and the lateness of the timers, over every run. */
  lemma NoStaleAnswer(c: Settings, run: Run, s: State, host: string)
    requires Reached(c, run, s) && Hit(s, host)
    ensures s.cache[host] == LastAnswer(c, run, host)
    ensures 0 <= s.now - s.cache[host].inserted <= (if c.ttl > 0 then c.ttl else 0) + c.late
  {
    ReachableInv(c, run);
    CachedIsLast(c, run, host);
    assert Guarded(c, s, host) && OnTime(c, Timer(host, Due(c, s.cache[host])), s.now);
  }

  // ---------------------------------------------------------------- timers

  /** How many answers were stored, timers fired, lookups missed and lookups settled. */
  datatype Tally = Tally(stored: nat, fired: nat, missed: nat, settled: nat)

  function Counted(n: Tally, e: Event): Tally {
    match e
    case Missed(_) => n.(missed := n.missed + 1)
    case Resolved(_, _) => n.(stored := n.stored + 1, settled := n.settled + 1)
    case Unresolved(_) => n.(settled := n.settled + 1)
    case Expired(_) => n.(fired := n.fired + 1)
    case Waited(_) => n
  }

  function TallyOf(c: Settings, run: Run): Tally {
    match run
    case Start => Tally(0, 0, 0, 0)
    case Then(before, e) =>
      if Enabled(c, After(c, before), e) then Counted(TallyOf(c, before), e) else TallyOf(c, before)
  }

  predicate Balanced(s: State, n: Tally) {
    n.stored == n.fired + |s.timers| && n.missed == n.settled + |s.pending|
  }

  lemma StepBalances(c: Settings, s: State, n: Tally, e: Event)
    requires Balanced(s, n) && Enabled(c, s, e)
    ensures Balanced(Step(c, s, e), Counted(n, e))
  {
  }

  /** Every stored answer has one timer, which fires once or is pending, and every lookup that
      missed is settled once or is pending. */
  lemma {:induction false} TimersAreConserved(c: Settings, run: Run)
    ensures Balanced(After(c, run), TallyOf(c, run))
  {
    if run.Then? {
      TimersAreConserved(c, run.before);
      if Enabled(c, After(c, run.before), run.last) {
        StepBalances(c, After(c, run.before), TallyOf(c, run.before), run.last);
      }
    }
  }

  // ---------------------------------------------------------------- early deletion

  /** A timer of an earlier answer, due before the entry has lived its time. */
  predicate Overtakes(c: Settings, s: State, host: string, t: Timer) {
    host in s.cache && t in s.timers && t.host == host && t.due < Due(c, s.cache[host])
  }

  /** The run stores nothing for the host. */
  predicate StoresNothing(run: Run, host: string) {
    run.Then? ==> StoresNothing(run.before, host) && !(run.last.Resolved? && run.last.host == host)
  }

  /** The run removes the host's entry before the entry has lived its time. */
  predicate RemovesEarly(c: Settings, s: State, host: string, run: Run) {
    && host in s.cache && StoresNothing(run, host)
    && var r := RunFrom(c, s, run); host !in r.cache && r.now < Due(c, s.cache[host])
  }

  /** Nothing pending for the host fires before the entry has lived its time. */
  ghost predicate Lasting(c: Settings, s: State, host: string) {
    host in s.cache && forall t :: t in s.timers ==> !Overtakes(c, s, host, t)
  }

  lemma LastsAStep(c: Settings, s: State, host: string, e: Event)
    requires Lasting(c, s, host) && !(e.Resolved? && e.host == host)
    ensures var r := Step(c, s, e);
      r.now >= s.now && (s.now < Due(c, s.cache[host]) ==> Lasting(c, r, host) && r.cache[host] == s.cache[host])
  {
    var r := Step(c, s, e);
    if s.now < Due(c, s.cache[host]) {
      assert e.Expired? && Enabled(c, s, e) ==> !Overtakes(c, s, host, e.timer);
      assert host in r.cache && r.cache[host] == s.cache[host];
      forall t | t in r.timers ensures !Overtakes(c, r, host, t) {
        if t in s.timers {
          assert !Overtakes(c, s, host, t);
        }
      }
    }
  }

  lemma TimePasses(c: Settings, s: State, e: Event)
    ensures Step(c, s, e).now >= s.now
  {
  }

  lemma {:induction false} LivesItsTime(c: Settings, s: State, host: string, run: Run)
    requires Lasting(c, s, host) && StoresNothing(run, host)
    ensures var r := RunFrom(c, s, run);
      r.now < Due(c, s.cache[host]) ==> Lasting(c, r, host) && r.cache[host] == s.cache[host]
  {
    if run.Then? {
      var p := RunFrom(c, s, run.before);
      LivesItsTime(c, s, host, run.before);
      TimePasses(c, p, run.last);
      if p.now < Due(c, s.cache[host]) {
        LastsAStep(c, p, host, run.last);
      }
    }
  }

  lemma {:induction false} EarliestTimer(timers: multiset<Timer>) returns (first: Timer)
    requires timers != multiset{}
    ensures first in timers && forall t :: t in timers ==> first.due <= t.due
    decreases |timers|
  {
    first :| first in timers;
    var others := timers - multiset{first};
    assert timers == multiset{first} + others;
    if others != multiset{} {
      var other := EarliestTimer(others);
      forall t | t in timers ensures (if other.due < first.due then other else first).due <= t.due {
        assert t == first || t in others;
      }
      first := if other.due < first.due then other else first;
    }
  }

  function Concat(a: Run, b: Run): Run {
    match b
    case Start => a
    case Then(before, e) => Then(Concat(a, before), e)
  }

  lemma {:induction false} RunConcat(c: Settings, s: State, a: Run, b: Run, host: string)
    requires StoresNothing(a, host) && StoresNothing(b, host)
    ensures RunFrom(c, s, Concat(a, b)) == RunFrom(c, RunFrom(c, s, a), b) && StoresNothing(Concat(a, b), host)
  {
    if b.Then? {
      RunConcat(c, s, a, b.before, host);
    }
  }

  /** Waits for the earliest timer and lets it fire. */
  lemma FiresNext(c: Settings, s: State, first: Timer) returns (run: Run, r: State)
    requires first in s.timers && forall t :: t in s.timers ==> first.due <= t.due
    ensures r == RunFrom(c, s, run) && r.timers == s.timers - multiset{first}
    ensures r.cache == s.cache - {first.host} && r.now == if first.due > s.now then first.due else s.now
    ensures forall host :: StoresNothing(run, host)
  {
    var wait := if first.due > s.now then first.due - s.now else 0;
    assert wait > 0 ==> Enabled(c, s, Waited(wait));
    var waited := if wait > 0 then Then(Start, Waited(wait)) else Start;
    assert RunFrom(c, s, Start) == s;
    run := Then(waited, Expired(first));
    assert Enabled(c, RunFrom(c, s, waited), Expired(first));
    r := RunFrom(c, s, run);
    forall host ensures StoresNothing(run, host) {
      assert StoresNothing(Start, host) && StoresNothing(waited, host);
    }
  }

  /** An overtaking timer can remove the entry before its time. */
  lemma {:induction false} OvertakenRemoved(c: Settings, s: State, host: string, t: Timer) returns (run: Run)
    requires Overtakes(c, s, host, t) && s.now < Due(c, s.cache[host])
    ensures RemovesEarly(c, s, host, run)
    decreases |s.timers|
  {
    var first := EarliestTimer(s.timers);
    var step, r := FiresNext(c, s, first);
    if first.host == host {
      run := step;
    } else {
      var more := OvertakenRemoved(c, r, host, t);
      RunConcat(c, s, step, more, host);
      run := Concat(step, more);
    }
  }

  /** An entry is still there while its time to live has not passed, over every continuation that
      stores nothing for the host, unless a timer of an earlier answer is pending. */
  lemma KeptForItsTime(c: Settings, s: State, host: string, run: Run)
    requires host in s.cache && StoresNothing(run, host)
    requires forall t :: t in s.timers && t.host == host ==>
      t.due >= s.cache[host].inserted + (if c.ttl > 0 then c.ttl else 0)
    ensures var r := RunFrom(c, s, run);
      r.now < s.cache[host].inserted + (if c.ttl > 0 then c.ttl else 0) ==>
        host in r.cache && r.cache[host] == s.cache[host]
  {
    LivesItsTime(c, s, host, run);
  }

  /** An entry can be gone before its time to live has passed, with nothing stored for the host since,
      exactly when a timer of an earlier answer for the host is pending. */
  lemma RemovedEarlyIff(c: Settings, s: State, host: string)
    requires host in s.cache && s.now < s.cache[host].inserted + (if c.ttl > 0 then c.ttl else 0)
    ensures
      (exists run, r :: Leads(c, s, run, r) && StoresNothing(run, host) && host !in r.cache
        && r.now < s.cache[host].inserted + (if c.ttl > 0 then c.ttl else 0)) <==>
      (exists t :: t in s.timers && t.host == host
        && t.due < s.cache[host].inserted + (if c.ttl > 0 then c.ttl else 0))
  {
    var due := s.cache[host].inserted + (if c.ttl > 0 then c.ttl else 0);
    if t :| t in s.timers && t.host == host && t.due < due {
      assert Overtakes(c, s, host, t);
      var run := OvertakenRemoved(c, s, host, t);
      assert Leads(c, s, run, RunFrom(c, s, run)) && RemovesEarly(c, s, host, run);
    } else {
      forall run, r | Leads(c, s, run, r) && StoresNothing(run, host) && r.now < due ensures host in r.cache {
        KeptForItsTime(c, s, host, run);
      }
    }
  }

  lemma StoresFirst(c: Settings, run: Run, host: string, ips: seq<Address>)
    requires After(c, run) == State(map[], multiset{}, multiset{host, host}, 0)
    ensures After(c, Then(run, Resolved(host, ips))) ==
      State(map[host := Entry(ips, 0)], multiset{Timer(host, if c.ttl > 0 then c.ttl else 0)}, multiset{host}, 0)
  {
    assert multiset{host, host} - multiset{host} == multiset{host};
  }

  /** Two lookups that miss together are enough for that. */
  lemma ConcurrentMisses(c: Settings, host: string, ips: seq<Address>, gap: nat)
    requires 0 < gap <= c.ttl
    ensures var two := Then(Then(Start, Missed(host)), Missed(host));
      var one := Then(two, Resolved(host, ips));
      var s := After(c, Then(Then(one, Waited(gap)), Resolved(host, ips)));
      host in s.cache && Timer(host, c.ttl) in s.timers && c.ttl < s.cache[host].inserted + c.ttl
  {
    var two := Then(Then(Start, Missed(host)), Missed(host));
    var s0 := State(map[], multiset{}, multiset{}, 0);
    assert After(c, Start) == s0;
    assert After(c, two.before) == s0.(pending := multiset{host});
    assert multiset{host} + multiset{host} == multiset{host, host};
    assert After(c, two) == s0.(pending := multiset{host, host});
    var one := Then(two, Resolved(host, ips));
    StoresFirst(c, two, host, ips);
    var waited := Then(one, Waited(gap));
    assert After(c, waited) == After(c, one).(now := gap);
    assert After(c, Then(waited, Resolved(host, ips))) == Step(c, After(c, waited), Resolved(host, ips));
  }
}
