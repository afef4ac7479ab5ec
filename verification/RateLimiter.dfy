/**
 The rate limiter: per-client buckets of request times, pruned in place.
 */
module RateLimiting {
  import opened RateWindow

  /** In nanoseconds. */
  const MINUTE := 60_000_000_000

  /** The list of the times in a stretch of an array. */
  function Listing(s: seq<int>): (r: Times)
    ensures Size(r) == |s|
  {
    if s == [] then Empty else Add(Listing(s[..|s| - 1]), s[|s| - 1])
  }

  lemma ListingSnoc(s: seq<int>, t: int)
    ensures Listing(s + [t]) == Add(Listing(s), t)
  {
    assert (s + [t])[..|s|] == s;
  }

  lemma PruneStep(pruned: seq<int>, entries: seq<int>, t: int, cutoff: int)
    requires Listing(pruned) == Later(Listing(entries), cutoff)
    ensures Listing(if t > cutoff then pruned + [t] else pruned) == Later(Listing(entries + [t]), cutoff)
  {
    ListingSnoc(pruned, t);
    ListingSnoc(entries, t);
  }

  /** Moves the entries later than `cutoff` to the front of the array, in order. The write cursor
      never passes the read cursor. */
  method Compact(a: array<int>, n: nat, cutoff: int) returns (kept: nat)
    requires n <= a.Length
    modifies a
    ensures kept <= n && Listing(a[..kept]) == Later(Listing(old(a[..n])), cutoff)
  {
    ghost var before, pruned := a[..n], [];
    kept := 0;
    for read := 0 to n
      invariant kept <= read
      invariant forall k :: read <= k < n ==> a[k] == before[k]
      invariant a[..kept] == pruned && Listing(pruned) == Later(Listing(before[..read]), cutoff)
    {
      var reqTime := a[read];
      PruneStep(pruned, before[..read], reqTime, cutoff);
      assert before[..read + 1] == before[..read] + [reqTime];
      if reqTime > cutoff {
        a[kept] := reqTime;
        kept := kept + 1;
        pruned := pruned + [reqTime];
      }
    }
    assert before[..n] == before;
  }

  /** The clients with a bucket for `ip`. */
  function Opened(m: Clients, ip: Client, now: int): Clients {
    if ip in m then m else m[ip := Bucket(Empty, now)]
  }

  lemma OpenedServes(lim: Limit, m: Clients, ip: Client, now: int)
    ensures AfterAllow(lim, Opened(m, ip, now), ip, now) == AfterAllow(lim, m, ip, now)
    ensures Admits(lim, Opened(m, ip, now), ip, now) <==> Admits(lim, m, ip, now)
  {
  }

  lemma OneChanged(before: Clients, after: Clients, ip: Client)
    requires after.Keys == before.Keys + {ip}
    requires forall k :: k in before && k != ip ==> after[k] == before[k]
    ensures after == before[ip := after[ip]]
  {
  }

  lemma SweptAgrees(lim: Limit, before: Clients, after: Clients, now: int)
    requires forall ip :: ip in after <==> ip in before && before[ip].lastSeen >= now - lim.age
    requires forall ip :: ip in after ==> after[ip] == before[ip]
    ensures after == AfterSweep(lim, before, now)
  {
  }

  /** A slice of request times: the first `len` elements of a backing array. */
  class ClientBucket {
    var requests: array<int>
    var len: nat
    var lastSeen: int

    ghost predicate Valid()
      reads this
    {
      len <= requests.Length
    }

    ghost function View(): Bucket
      requires Valid()
      reads this, requests
    {
      Bucket(Listing(requests[..len]), lastSeen)
    }

    constructor (now: int)
      ensures Valid() && fresh(requests) && View() == Bucket(Empty, now)
    {
      requests := new int[0];
      len := 0;
      lastSeen := now;
    }

    /** Drops the entries that are not later than `cutoff`, compacting the array in place. */
    method Prune(cutoff: int)
      requires Valid()
      modifies this`len, requests
      ensures Valid() && View() == old(View()).(requests := Later(old(View()).requests, cutoff))
    {
      len := Compact(requests, len, cutoff);
    }

    /** Appends in place while there is room, and into a larger array otherwise. */
    method Append(now: int)
      requires Valid()
      modifies this, requests
      ensures Valid() && (requests == old(requests) || fresh(requests))
      ensures View() == old(View()).(requests := Add(old(View()).requests, now))
    {
      ghost var before := requests[..len];
      if len == requests.Length {
        var grown := new int[2 * len + 1];
        for i := 0 to len
          invariant forall k :: 0 <= k < i ==> grown[k] == before[k]
          modifies grown
        {
          grown[i] := requests[i];
        }
        requests := grown;
      }
      assert requests[..len] == before;
      requests[len] := now;
      len := len + 1;
      assert requests[..len] == before + [now];
      ListingSnoc(before, now);
    }

    /** One request: prune, and take it in when the limit leaves room. */
    method Serve(lim: Limit, now: int) returns (ok: bool)
      requires Valid()
      modifies this, requests
      ensures Valid() && (requests == old(requests) || fresh(requests))
      ensures View() == Served(lim, old(View()).requests, now)
      ensures ok <==> Size(Later(old(View()).requests, now - lim.window)) < lim.rps
    {
      lastSeen := now;
      Prune(now - lim.window);
      if len >= lim.rps {
        return false;
      }
      Append(now);
      ok := true;
    }
  }

  class RateLimiter {
    const lim: Limit
    var clients: map<Client, ClientBucket>
    ghost var repr: set<object>

    /** Every client has a bucket and a backing array of its own. */
    ghost predicate Valid()
      reads this, repr
    {
      && this in repr
      && (forall ip :: ip in clients ==>
            clients[ip] in repr && clients[ip].requests in repr && clients[ip].Valid())
      && (forall a, b :: a in clients && b in clients && a != b ==>
            clients[a] != clients[b] && clients[a].requests != clients[b].requests)
    }

    ghost function View(): Clients
      requires Valid()
      reads this, repr
    {
      map ip | ip in clients :: clients[ip].View()
    }

    /** The sweep age is fixed at five minutes. */
    constructor (requestsPerSecond: nat, window: int)
      ensures Valid() && fresh(repr) && View() == After(lim, None)
      ensures lim == Limit(requestsPerSecond, window, 300_000_000_000)
    {
      lim := Limit(requestsPerSecond, window, 5 * MINUTE);
      clients := map[];
      repr := {this};
    }

    /** Adds an empty bucket for `ip`. */
    method AddBucket(ip: Client, now: int)
      requires Valid() && ip !in clients
      modifies this
      ensures Valid() && fresh(repr - old(repr)) && clients.Keys == old(clients).Keys + {ip}
      ensures clients[ip].View() == Bucket(Empty, now)
      ensures forall k :: k in old(clients) ==> clients[k].View() == old(clients[k].View())
    {
      var created := new ClientBucket(now);
      clients := clients[ip := created];
      repr := repr + {created, created.requests};
    }

    /** Creates the bucket of `ip` when there is none. */
    method GetOrCreate(ip: Client, now: int)
      requires Valid()
      modifies this
      ensures Valid() && fresh(repr - old(repr)) && ip in clients
      ensures View() == Opened(old(View()), ip, now)
    {
      ghost var before := View();
      if ip !in clients {
        AddBucket(ip, now);
        assert View().Keys == before.Keys + {ip};
        OneChanged(before, View(), ip);
      }
    }

    /** Serves one request from the bucket of `ip`, and touches no other. */
    method ServeFrom(ip: Client, now: int) returns (ok: bool)
      requires Valid() && ip in clients
      modifies repr
      ensures Valid() && fresh(repr - old(repr)) && clients == old(clients)
      ensures clients[ip].View() == Served(lim, old(clients[ip].View()).requests, now)
      ensures forall k :: k in clients && k != ip ==> clients[k].View() == old(clients[k].View())
      ensures ok <==> Size(Later(old(clients[ip].View()).requests, now - lim.window)) < lim.rps
    {
      var bucket := clients[ip];
      ok := bucket.Serve(lim, now);
      repr := repr + {bucket.requests};
    }

    /** Serves one request of `ip` at time `now`. */
    method Allow(ip: Client, now: int) returns (ok: bool)
      requires Valid()
      modifies repr
      ensures Valid() && fresh(repr - old(repr))
      ensures View() == AfterAllow(lim, old(View()), ip, now)
      ensures ok <==> Admits(lim, old(View()), ip, now)
      ensures ip in clients && clients[ip].lastSeen == now
    {
      ghost var before := View();
      GetOrCreate(ip, now);
      ghost var ready := View();
      OpenedServes(lim, before, ip, now);
      ok := ServeFrom(ip, now);
      assert View().Keys == ready.Keys;
      OneChanged(ready, View(), ip);
    }

    /** Deletes the buckets not used for five minutes. */
    method Cleanup(now: int)
      requires Valid()
      modifies this`clients
      ensures Valid() && View() == AfterSweep(lim, old(View()), now)
      ensures forall ip :: ip in clients <==> ip in old(clients) && old(clients[ip].lastSeen) >= now - lim.age
    {
      ghost var before := View();
      Sweep(now - lim.age);
      SweptAgrees(lim, before, View(), now);
    }

    method Sweep(cutoff: int)
      requires Valid()
      modifies this`clients
      ensures forall ip :: ip in clients <==> ip in old(clients) && old(clients)[ip].lastSeen >= cutoff
      ensures forall ip :: ip in clients ==> clients[ip] == old(clients)[ip]
    {
      ghost var before := clients;
      var left := clients.Keys;
      while left != {}
        invariant left <= before.Keys && forall ip :: ip in left ==> ip in clients
        invariant forall ip :: ip in clients ==> ip in before && clients[ip] == before[ip]
        invariant forall ip :: ip in before ==>
          (ip in clients <==> ip in left || before[ip].lastSeen >= cutoff)
        decreases left
      {
        var ip :| ip in left;
        left := left - {ip};
        if clients[ip].lastSeen < cutoff {
          clients := clients - {ip};
        }
      }
    }
  }

  /** For the limiter as it is constructed, the laws hold on every run exactly when the window is at
      most five minutes and one nanosecond. */
  lemma ConstructedIff(rps: nat, window: int, ip: Client)
    requires rps > 0 && window > 0
    ensures var lim := Limit(rps, window, 300_000_000_000);
      && ((forall calls: Calls, now: int :: AgreesWithHistory(lim, calls, ip, now)) <==> window <= 300_000_000_001)
      && ((forall calls: Calls, a: int, k: nat :: Bounded(lim, calls, ip, a, k)) <==> window <= 300_000_000_001)
      && ((forall calls: Calls :: Isolated(lim, calls, ip)) <==> window <= 300_000_000_001)
  {
    var lim := Limit(rps, window, 300_000_000_000);
    RefinementIff(lim, ip);
    RateBoundIff(lim, ip);
    IsolationIff(lim, ip);
  }

  /** With the default window of one minute the constructed limiter admits a request exactly when
      fewer than the limit of all requests ever admitted for the client are later than a minute ago. */
  lemma DefaultWindow(rps: nat, calls: Calls, ip: Client, now: int)
    requires Chronological(calls) && Latest(calls, now)
    ensures var lim := Limit(rps, 60_000_000_000, 300_000_000_000);
      Admits(lim, After(lim, calls), ip, now) <==>
        Size(Later(History(lim, calls, ip), now - 60_000_000_000)) < rps
  {
    RefinesHistory(Limit(rps, 60_000_000_000, 300_000_000_000), calls, ip, now);
  }

  /** A client seen within the last five minutes keeps its bucket over a sweep, and no other does. */
  lemma SweepKeeps(rps: nat, window: int, m: Clients, now: int, ip: Client)
    ensures var lim := Limit(rps, window, 300_000_000_000);
      && (ip in AfterSweep(lim, m, now) <==> ip in m && now - m[ip].lastSeen <= 300_000_000_000)
      && (ip in AfterSweep(lim, m, now) ==> AfterSweep(lim, m, now)[ip] == m[ip])
  {
  }
}
