/**
 The DNS cache as it is kept: a map from hosts to their addresses, changed by answers and by
 delayed deletes. What the lookups and the clock have done so far is its ghost state.
 */
module DnsCaching {
  import opened DnsModel

  datatype Answer = NoAnswer | Answered(ips: seq<Address>)

  datatype Connection = Refused | Connected(ip: Address)

  /** The first address that takes the connection. */
  function FirstReachable(ips: seq<Address>, reachable: Address -> bool): (r: Connection)
    ensures r == Refused <==> forall ip :: ip in ips ==> !reachable(ip)
    ensures r.Connected? ==>
      exists k :: 0 <= k < |ips| && ips[k] == r.ip && reachable(r.ip) && (forall j :: 0 <= j < k ==> !reachable(ips[j]))
  {
    if ips == [] then Refused
    else if reachable(ips[0]) then Connected(ips[0])
    else
      var r := FirstReachable(ips[1..], reachable);
      assert forall k :: 0 <= k < |ips[1..]| ==> ips[1..][k] == ips[k + 1];
      r
  }

  class DnsCache {
    const settings: Settings
    var dnsCache: map<string, seq<Address>>
    ghost var state: State

    ghost predicate Valid()
      reads this
    {
      dnsCache == map host | host in state.cache :: state.cache[host].ips
    }

    constructor (settings: Settings)
      ensures Valid() && this.settings == settings && state == After(settings, Start)
    {
      this.settings := settings;
      dnsCache := map[];
      state := After(settings, Start);
    }

    /** The stored addresses; none when there is nothing to use, and the lookup has missed. */
    method Lookup(host: string) returns (ips: seq<Address>)
      requires Valid()
      modifies this`state
      ensures Valid()
      ensures ips == if host in old(state).cache then old(state).cache[host].ips else []
      ensures state == if ips != [] then old(state)
        else old(state).(pending := old(state).pending + multiset{host})
      ensures ips == [] ==> state == Step(settings, old(state), Missed(host))
    {
      if host in dnsCache && |dnsCache[host]| > 0 {
        return dnsCache[host];
      }
      state := Step(settings, state, Missed(host));
      ips := [];
    }

    /** Stores an answer, over whatever is stored, and schedules a delete of its own after the time
        to live. */
    method Store(host: string, ips: seq<Address>)
      requires Valid() && Enabled(settings, state, Resolved(host, ips))
      modifies this
      ensures Valid() && state == Step(settings, old(state), Resolved(host, ips))
      ensures state.cache == old(state).cache[host := Entry(ips, old(state).now)] && state.now == old(state).now
      ensures state.timers == old(state).timers
        + multiset{Timer(host, old(state).now + if settings.ttl > 0 then settings.ttl else 0)}
      ensures state.pending == old(state).pending - multiset{host}
    {
      dnsCache := dnsCache[host := ips];
      state := Step(settings, state, Resolved(host, ips));
    }

    /** A timer fires: it deletes what is stored for its host by now. */
    method Expire(timer: Timer)
      requires Valid() && Enabled(settings, state, Expired(timer))
      modifies this
      ensures Valid() && state == Step(settings, old(state), Expired(timer))
      ensures state.cache == old(state).cache - {timer.host} && timer.host !in dnsCache
      ensures state.timers == old(state).timers - multiset{timer}
    {
      dnsCache := dnsCache - {timer.host};
      state := Step(settings, state, Expired(timer));
    }

    /** Dials the addresses in turn. */
    method Dial(ips: seq<Address>, reachable: Address -> bool) returns (r: Connection)
      ensures r == FirstReachable(ips, reachable)
    {
      for i := 0 to |ips|
        invariant FirstReachable(ips, reachable) == FirstReachable(ips[i..], reachable)
      {
        assert ips[i..][1..] == ips[i + 1..];
        if reachable(ips[i]) {
          return Connected(ips[i]);
        }
      }
      r := Refused;
    }

    /** One call: stored addresses are dialled without a lookup, a failed lookup dials and stores
        nothing, and an answer is stored, with a delete after the time to live, and dialled. */
    method Connect(host: string, answer: Answer, reachable: Address -> bool) returns (r: Connection)
      requires Valid()
      modifies this
      ensures Valid()
      ensures var s := old(state); var hit := host in s.cache && s.cache[host].ips != [];
        && (hit ==> state == s && r == FirstReachable(s.cache[host].ips, reachable))
        && (!hit && answer.NoAnswer? ==> state == s && r == Refused)
        && (!hit && answer.Answered? ==>
              && r == FirstReachable(answer.ips, reachable)
              && state.cache == s.cache[host := Entry(answer.ips, s.now)]
              && state.timers == s.timers + multiset{Timer(host, s.now + if settings.ttl > 0 then settings.ttl else 0)}
              && state.pending == s.pending && state.now == s.now)
    {
      ghost var s := state;
      var ips := Lookup(host);
      if ips == [] {
        MissSettled(settings, s, host, if answer.Answered? then answer.ips else []);
        match answer
        case NoAnswer =>
          state := Step(settings, state, Unresolved(host));
          return Refused;
        case Answered(resolved) =>
          Store(host, resolved);
          ips := resolved;
      }
      r := Dial(ips, reachable);
    }
  }
}
