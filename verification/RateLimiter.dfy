/**
 The faucet's sliding-window limits: per IP and per address in the web faucet, per IP in the
 container's server.  Times are milliseconds of a clock that does not go back.
 */
module RateLimiter {

  const WINDOW_MS: int := 60 * 60 * 1000
  const IP_MAX_REQUESTS: nat := 10
  const ADDRESS_MAX_REQUESTS: nat := 5

  type Times = map<string, seq<int>>

  function Get(m: Times, key: string): seq<int> {
    if key in m then m[key] else []
  }

  /** The entries of the hour before `now`. */
  function Prune(times: seq<int>, now: int): (r: seq<int>) {
    if times == [] then []
    else (if times[0] > now - WINDOW_MS then [times[0]] else []) + Prune(times[1..], now)
  }

  /** One request against one limit: drop what is an hour old at `now`, then record `later` if the
      rest is below the limit. */
  function Attempt(m: Times, key: string, max: nat, now: int, later: int): (bool, Times) {
    var recent := Prune(Get(m, key), now);
    if |recent| >= max then (false, m[key := recent]) else (true, m[key := recent + [later]])
  }

  // ----- the limiters

  /** `isWithinLimit` over one of the module's maps; the source reads the clock twice. */
  class Limits {
    var entries: Times

    constructor ()
      ensures entries == map[]
    {
      entries := map[];
    }

    method IsWithinLimit(key: string, max: nat, now: int, later: int) returns (ok: bool)
      modifies this
      ensures (ok, entries) == Attempt(old(entries), key, max, now, later)
    {
      if key !in entries { entries := entries[key := []]; }
      entries := entries[key := Prune(entries[key], now)];
      assert entries == old(entries)[key := Prune(Get(old(entries), key), now)];
      if |entries[key]| >= max { return false; }
      entries := entries[key := entries[key] + [later]];
      assert entries == old(entries)[key := Prune(Get(old(entries), key), now) + [later]];
      return true;
    }
  }

  /** `checkLimit`: the address is only consulted, and recorded, when the IP passes. */
  method CheckLimit(ips: Limits, addresses: Limits, r: Request) returns (ok: bool)
    requires ips != addresses
    modifies ips, addresses
    ensures var s := Handle(Faucet(old(ips.entries), old(addresses.entries), map[], map[], []), r);
      ips.entries == s.ips && addresses.entries == s.addresses && ok == (s.accepted != [])
  {
    ok := ips.IsWithinLimit(r.ip, IP_MAX_REQUESTS, r.ipNow, r.ipLater);
    if ok {
      ok := addresses.IsWithinLimit(r.address, ADDRESS_MAX_REQUESTS, r.addressNow, r.addressLater);
    }
  }

  datatype Cluster = Devnet | Testnet | Mainnet | Other

  function RatePerHour(c: Cluster): nat {
    match c
    case Devnet => 10
    case Testnet => 3
    case Mainnet => 0
    case Other => 10
  }

  /** `checkRateLimit` of the container's faucet server. */
  class Server {
    const cluster: Cluster
    var tracker: Times

    constructor (cluster: Cluster)
      ensures this.cluster == cluster && tracker == map[]
    {
      this.cluster := cluster;
      tracker := map[];
    }

    method CheckRateLimit(ip: string, now: int) returns (ok: bool)
      modifies this
      ensures (ok, tracker) == Attempt(old(tracker), ip, RatePerHour(cluster), now, now)
    {
      if ip !in tracker { tracker := tracker[ip := []]; }
      var requests := Prune(tracker[ip], now);
      tracker := tracker[ip := requests];
      assert tracker == old(tracker)[ip := requests];
      if |requests| >= RatePerHour(cluster) { return false; }
      tracker := tracker[ip := requests + [now]];
      assert tracker == old(tracker)[ip := requests + [now]];
      return true;
    }
  }

  // ----- one limit against the full history

  /** How many of the times fall into [from, from + one hour). */
  function InWindow(times: seq<int>, from: int): nat {
    if times == [] then 0
    else (if from <= times[0] < from + 3_600_000 then 1 else 0) + InWindow(times[1..], from)
  }

  lemma {:induction false} PruneAppend(times: seq<int>, t: int, now: int)
    ensures Prune(times + [t], now) == Prune(times, now) + if t > now - WINDOW_MS then [t] else []
    decreases |times|
  {
    if times == [] {
      assert times + [t] == [t] && [t][1..] == [];
    } else {
      assert (times + [t])[1..] == times[1..] + [t];
      PruneAppend(times[1..], t, now);
    }
  }

  /** Pruning keeps exactly the entries of the last 3,600,000 milliseconds, each as often as it was. */
  lemma {:induction false} PruneKeepsLastHour(times: seq<int>, now: int, t: int)
    ensures multiset(Prune(times, now))[t] == if t > now - 3_600_000 then multiset(times)[t] else 0
    decreases |times|
  {
    if times != [] {
      PruneKeepsLastHour(times[1..], now, t);
      assert times == [times[0]] + times[1..];
    }
  }

  /** Pruning earlier does not change what a later pruning leaves. */
  lemma {:induction false} PruneTwice(times: seq<int>, now: int, later: int)
    requires now <= later
    ensures Prune(Prune(times, now), later) == Prune(times, later)
    decreases |times|
  {
    if times != [] {
      PruneTwice(times[1..], now, later);
      var rest := Prune(times[1..], now);
      if times[0] > now - WINDOW_MS {
        assert ([times[0]] + rest)[0] == times[0] && ([times[0]] + rest)[1..] == rest;
      } else {
        assert Prune(times, now) == rest;
      }
    }
  }

  lemma {:induction false} InWindowAppend(times: seq<int>, t: int, from: int)
    ensures InWindow(times + [t], from) == InWindow(times, from) + if from <= t < from + WINDOW_MS then 1 else 0
    decreases |times|
  {
    if times == [] {
      assert times + [t] == [t] && [t][1..] == [];
    } else {
      assert (times + [t])[1..] == times[1..] + [t];
      InWindowAppend(times[1..], t, from);
    }
  }

  /** A window that starts less than an hour before `now` only holds entries that pruning keeps. */
  lemma {:induction false} WindowWithinRecent(times: seq<int>, now: int, from: int)
    requires from > now - WINDOW_MS
    ensures InWindow(times, from) <= |Prune(times, now)|
    decreases |times|
  {
    if times != [] { WindowWithinRecent(times[1..], now, from); }
  }

  /** From `clock` on, the kept entries decide as the complete list of recorded requests would. */
  ghost predicate Faithful(kept: seq<int>, all: seq<int>, clock: int) {
    forall now :: now >= clock ==> Prune(kept, now) == Prune(all, now)
  }

  ghost predicate Bounded(all: seq<int>, max: nat) {
    forall from :: InWindow(all, from) <= max
  }

  /** The recorded requests of `key` after an attempt. */
  function Recorded(all: Times, key: string, ok: bool, later: int): Times {
    if ok then all[key := Get(all, key) + [later]] else all
  }

  ghost predicate Agrees(kept: Times, all: Times, max: nat, clock: int) {
    && (forall key :: Faithful(Get(kept, key), Get(all, key), clock))
    && (forall key :: Bounded(Get(all, key), max))
  }

  /** A request is refused exactly when the requests recorded in the last hour reach the limit. */
  lemma RefusedIffFull(kept: Times, all: Times, key: string, max: nat, clock: int, now: int, later: int)
    requires Agrees(kept, all, max, clock) && clock <= now
    ensures !Attempt(kept, key, max, now, later).0 <==> |Prune(Get(all, key), now)| >= max
  {
    assert Faithful(Get(kept, key), Get(all, key), clock);
  }

  lemma AttemptKeepsFaithful(kept: seq<int>, all: seq<int>, clock: int, now: int, later: int)
    requires Faithful(kept, all, clock) && clock <= now <= later
    ensures Faithful(Prune(kept, now), all, later)
    ensures Faithful(Prune(kept, now) + [later], all + [later], later)
  {
    forall t | t >= later
      ensures Prune(Prune(kept, now), t) == Prune(all, t)
      ensures Prune(Prune(kept, now) + [later], t) == Prune(all + [later], t)
    {
      PruneTwice(kept, now, t);
      PruneAppend(Prune(kept, now), later, t);
      PruneAppend(all, later, t);
    }
  }

  lemma RecordKeepsBound(all: seq<int>, max: nat, now: int, later: int)
    requires Bounded(all, max) && now <= later && |Prune(all, now)| < max
    ensures Bounded(all + [later], max)
  {
    forall from ensures InWindow(all + [later], from) <= max {
      InWindowAppend(all, later, from);
      if from <= later < from + WINDOW_MS { WindowWithinRecent(all, now, from); }
    }
  }

  /** Every attempt keeps the limiter in agreement with the full history. */
  lemma AttemptKeepsAgreement(kept: Times, all: Times, key: string, max: nat, clock: int, now: int, later: int)
    requires Agrees(kept, all, max, clock) && clock <= now <= later
    ensures var (ok, kept') := Attempt(kept, key, max, now, later);
      Agrees(kept', Recorded(all, key, ok, later), max, later)
  {
    var (ok, kept') := Attempt(kept, key, max, now, later);
    var all' := Recorded(all, key, ok, later);
    RefusedIffFull(kept, all, key, max, clock, now, later);
    forall k ensures Faithful(Get(kept', k), Get(all', k), later) && Bounded(Get(all', k), max) {
      assert Faithful(Get(kept, k), Get(all, k), clock) && Bounded(Get(all, k), max);
      if k == key {
        AttemptKeepsFaithful(Get(kept, k), Get(all, k), clock, now, later);
        if ok { RecordKeepsBound(Get(all, k), max, now, later); }
      }
    }
  }

  // ----- whole runs of the web faucet

  /** A request with the four clock readings its handling makes. */
  datatype Request = Request(ip: string, address: string, ipNow: int, ipLater: int, addressNow: int, addressLater: int)

  /** The limiter's maps, all requests ever recorded per key, and the accepted requests. */
  datatype Faucet = Faucet(ips: Times, addresses: Times, ipAll: Times, addressAll: Times, accepted: seq<Request>)

  function Handle(s: Faucet, r: Request): Faucet {
    var (ipOk, ips) := Attempt(s.ips, r.ip, IP_MAX_REQUESTS, r.ipNow, r.ipLater);
    var ipAll := Recorded(s.ipAll, r.ip, ipOk, r.ipLater);
    if !ipOk then s.(ips := ips, ipAll := ipAll)
    else
      var (addressOk, addresses) := Attempt(s.addresses, r.address, ADDRESS_MAX_REQUESTS, r.addressNow, r.addressLater);
      Faucet(ips, addresses, ipAll, Recorded(s.addressAll, r.address, addressOk, r.addressLater),
             if addressOk then s.accepted + [r] else s.accepted)
  }

  function Run(rs: seq<Request>): Faucet {
    if rs == [] then Faucet(map[], map[], map[], map[], [])
    else Handle(Run(rs[..|rs| - 1]), rs[|rs| - 1])
  }

  ghost predicate Ordered(r: Request) {
    r.ipNow <= r.ipLater <= r.addressNow <= r.addressLater
  }

  /** The clock never goes back. */
  ghost predicate Monotone(rs: seq<Request>) {
    && (forall i :: 0 <= i < |rs| ==> Ordered(rs[i]))
    && (forall i :: 0 < i < |rs| ==> rs[i - 1].addressLater <= rs[i].ipNow)
  }

  /** The times at which accepted requests of one IP were recorded. */
  function IpTimes(rs: seq<Request>, ip: string): seq<int> {
    if rs == [] then []
    else IpTimes(rs[..|rs| - 1], ip) + if rs[|rs| - 1].ip == ip then [rs[|rs| - 1].ipLater] else []
  }

  function AddressTimes(rs: seq<Request>, address: string): seq<int> {
    if rs == [] then []
    else AddressTimes(rs[..|rs| - 1], address) + if rs[|rs| - 1].address == address then [rs[|rs| - 1].addressLater] else []
  }

  ghost predicate FaucetInv(s: Faucet, clock: int) {
    && Agrees(s.ips, s.ipAll, IP_MAX_REQUESTS, clock)
    && Agrees(s.addresses, s.addressAll, ADDRESS_MAX_REQUESTS, clock)
    && Accounted(s)
  }

  /** Accepted requests are recorded requests; for addresses they are all of them. */
  ghost predicate Accounted(s: Faucet) {
    && (forall a :: AddressTimes(s.accepted, a) == Get(s.addressAll, a))
    && (forall ip :: Fewer(IpTimes(s.accepted, ip), Get(s.ipAll, ip)))
  }

  ghost predicate Fewer(some: seq<int>, all: seq<int>) {
    forall from :: InWindow(some, from) <= InWindow(all, from)
  }

  lemma AcceptedTimes(rs: seq<Request>, r: Request, ip: string, a: string)
    ensures IpTimes(rs + [r], ip) == if r.ip == ip then IpTimes(rs, ip) + [r.ipLater] else IpTimes(rs, ip)
    ensures AddressTimes(rs + [r], a) == if r.address == a then AddressTimes(rs, a) + [r.addressLater] else AddressTimes(rs, a)
  {
    assert (rs + [r])[..|rs|] == rs;
  }

  lemma FewerAppend(some: seq<int>, all: seq<int>, t: int)
    requires Fewer(some, all)
    ensures Fewer(some, all + [t]) && Fewer(some + [t], all + [t])
  {
    forall from ensures InWindow(some, from) <= InWindow(all + [t], from)
      ensures InWindow(some + [t], from) <= InWindow(all + [t], from)
    {
      InWindowAppend(some, t, from);
      InWindowAppend(all, t, from);
    }
  }

  lemma HandleKeepsAccounts(s: Faucet, r: Request)
    requires Accounted(s)
    ensures Accounted(Handle(s, r))
  {
    var t := Handle(s, r);
    forall ip ensures Fewer(IpTimes(t.accepted, ip), Get(t.ipAll, ip)) {
      IpAccounted(s, r, ip);
    }
    forall a ensures AddressTimes(t.accepted, a) == Get(t.addressAll, a) {}
  }

  lemma IpAccounted(s: Faucet, r: Request, ip: string)
    requires Fewer(IpTimes(s.accepted, ip), Get(s.ipAll, ip))
    ensures Fewer(IpTimes(Handle(s, r).accepted, ip), Get(Handle(s, r).ipAll, ip))
  {
    IpRecorded(s.accepted, s.ipAll, r, ip);
  }

  lemma IpRecorded(accepted: seq<Request>, all: Times, r: Request, ip: string)
    requires Fewer(IpTimes(accepted, ip), Get(all, ip))
    ensures
      var more := Recorded(all, r.ip, true, r.ipLater);
      Fewer(IpTimes(accepted, ip), Get(more, ip)) && Fewer(IpTimes(accepted + [r], ip), Get(more, ip))
  {
    AcceptedTimes(accepted, r, ip, "");
    FewerAppend(IpTimes(accepted, ip), Get(all, ip), r.ipLater);
  }

  lemma HandleKeepsInv(s: Faucet, r: Request, clock: int)
    requires FaucetInv(s, clock) && Ordered(r) && clock <= r.ipNow
    ensures FaucetInv(Handle(s, r), r.addressLater)
  {
    var t := Handle(s, r);
    var ipOk := Attempt(s.ips, r.ip, IP_MAX_REQUESTS, r.ipNow, r.ipLater).0;
    AttemptKeepsAgreement(s.ips, s.ipAll, r.ip, IP_MAX_REQUESTS, clock, r.ipNow, r.ipLater);
    if ipOk {
      AttemptKeepsAgreement(s.addresses, s.addressAll, r.address, ADDRESS_MAX_REQUESTS, clock, r.addressNow, r.addressLater);
    }
    HandleKeepsAccounts(s, r);
  }

  lemma {:induction false} RunKeepsInv(rs: seq<Request>)
    requires Monotone(rs)
    ensures rs == [] ==> forall clock :: FaucetInv(Run(rs), clock)
    ensures rs != [] ==> FaucetInv(Run(rs), rs[|rs| - 1].addressLater)
    decreases |rs|
  {
    if rs != [] {
      var before, r := rs[..|rs| - 1], rs[|rs| - 1];
      RunKeepsInv(before);
      HandleKeepsInv(Run(before), r, if before == [] then r.ipNow else before[|before| - 1].addressLater);
    }
  }

  /** In every run and every half-open hour, an IP gets at most 10 requests through and an address
      at most 5. */
  lemma RunRespectsLimits(rs: seq<Request>, ip: string, address: string, from: int)
    requires Monotone(rs)
    ensures InWindow(IpTimes(Run(rs).accepted, ip), from) <= 10
    ensures InWindow(AddressTimes(Run(rs).accepted, address), from) <= 5
  {
    RunKeepsInv(rs);
    var s := Run(rs);
    assert rs == [] ==> FaucetInv(s, 0);
    assert Fewer(IpTimes(s.accepted, ip), Get(s.ipAll, ip));
    assert Bounded(Get(s.ipAll, ip), IP_MAX_REQUESTS) && Bounded(Get(s.addressAll, address), ADDRESS_MAX_REQUESTS);
  }

  /** After any run, the next request is refused exactly when the requests recorded for its IP in
      the last hour reach the limit, or else those recorded for its address do. */
  lemma RunRefusesIffFull(rs: seq<Request>, r: Request)
    requires Monotone(rs + [r])
    ensures Run(rs + [r]).accepted == Run(rs).accepted <==>
            || |Prune(Get(Run(rs).ipAll, r.ip), r.ipNow)| >= IP_MAX_REQUESTS
            || |Prune(Get(Run(rs).addressAll, r.address), r.addressNow)| >= ADDRESS_MAX_REQUESTS
  {
    var all := rs + [r];
    assert all[..|rs|] == rs && all[|rs|] == r;
    assert Monotone(rs) by {
      assert forall i :: 0 <= i < |rs| ==> rs[i] == all[i];
    }
    RunKeepsInv(rs);
    var s, clock := Run(rs), if rs == [] then r.ipNow else rs[|rs| - 1].addressLater;
    assert rs != [] ==> all[|rs| - 1] == rs[|rs| - 1];
    RefusedIffFull(s.ips, s.ipAll, r.ip, IP_MAX_REQUESTS, clock, r.ipNow, r.ipLater);
    RefusedIffFull(s.addresses, s.addressAll, r.address, ADDRESS_MAX_REQUESTS, clock, r.addressNow, r.addressLater);
  }

  /** What a run records: an IP's request whenever fewer than 10 were recorded for the IP in the last
      hour, also if the address is then refused; an address's request only after its IP passed, and
      when fewer than 5 were recorded. */
  lemma RunRecordsIff(rs: seq<Request>, r: Request)
    requires Monotone(rs + [r])
    ensures
      var s, t := Run(rs), Run(rs + [r]);
      var ipFree := |Prune(Get(s.ipAll, r.ip), r.ipNow)| < 10;
      var addressFree := |Prune(Get(s.addressAll, r.address), r.addressNow)| < 5;
      && Get(t.ipAll, r.ip) == Get(s.ipAll, r.ip) + (if ipFree then [r.ipLater] else [])
      && Get(t.addressAll, r.address) ==
           Get(s.addressAll, r.address) + (if ipFree && addressFree then [r.addressLater] else [])
      && t.accepted == s.accepted + (if ipFree && addressFree then [r] else [])
      && (forall ip :: ip != r.ip ==> Get(t.ipAll, ip) == Get(s.ipAll, ip))
      && (forall a :: a != r.address ==> Get(t.addressAll, a) == Get(s.addressAll, a))
  {
    var all := rs + [r];
    assert all[..|rs|] == rs && all[|rs|] == r;
    assert Monotone(rs) by {
      assert forall i :: 0 <= i < |rs| ==> rs[i] == all[i];
    }
    RunKeepsInv(rs);
    var s, clock := Run(rs), if rs == [] then r.ipNow else rs[|rs| - 1].addressLater;
    assert rs != [] ==> all[|rs| - 1] == rs[|rs| - 1];
    RefusedIffFull(s.ips, s.ipAll, r.ip, IP_MAX_REQUESTS, clock, r.ipNow, r.ipLater);
    RefusedIffFull(s.addresses, s.addressAll, r.address, ADDRESS_MAX_REQUESTS, clock, r.addressNow, r.addressLater);
    HandleRecords(s, r);
  }

  lemma HandleRecords(s: Faucet, r: Request)
    ensures
      var t := Handle(s, r);
      var ipOk := Attempt(s.ips, r.ip, IP_MAX_REQUESTS, r.ipNow, r.ipLater).0;
      var addressOk := Attempt(s.addresses, r.address, ADDRESS_MAX_REQUESTS, r.addressNow, r.addressLater).0;
      && Get(t.ipAll, r.ip) == Get(s.ipAll, r.ip) + (if ipOk then [r.ipLater] else [])
      && Get(t.addressAll, r.address) == Get(s.addressAll, r.address) + (if ipOk && addressOk then [r.addressLater] else [])
      && t.accepted == s.accepted + (if ipOk && addressOk then [r] else [])
      && (forall ip :: ip != r.ip ==> Get(t.ipAll, ip) == Get(s.ipAll, ip))
      && (forall a :: a != r.address ==> Get(t.addressAll, a) == Get(s.addressAll, a))
  {
  }

  // ----- whole runs of the container's server

  datatype Visit = Visit(ip: string, now: int)

  /** The tracker and all requests recorded after serving these visits. */
  function Serve(c: Cluster, vs: seq<Visit>): (Times, Times) {
    if vs == [] then (map[], map[])
    else
      var v := vs[|vs| - 1];
      var (tracker, all) := Serve(c, vs[..|vs| - 1]);
      var (ok, tracker') := Attempt(tracker, v.ip, RatePerHour(c), v.now, v.now);
      (tracker', Recorded(all, v.ip, ok, v.now))
  }

  lemma {:induction false} ServerAgrees(c: Cluster, vs: seq<Visit>)
    requires forall i :: 0 < i < |vs| ==> vs[i - 1].now <= vs[i].now
    ensures vs == [] ==> forall clock :: Agrees(Serve(c, vs).0, Serve(c, vs).1, RatePerHour(c), clock)
    ensures vs != [] ==> Agrees(Serve(c, vs).0, Serve(c, vs).1, RatePerHour(c), vs[|vs| - 1].now)
    decreases |vs|
  {
    if vs != [] {
      var before, v := vs[..|vs| - 1], vs[|vs| - 1];
      ServerAgrees(c, before);
      var clock := if before == [] then v.now else before[|before| - 1].now;
      var (tracker, all) := Serve(c, before);
      AttemptKeepsAgreement(tracker, all, v.ip, RatePerHour(c), clock, v.now, v.now);
    }
  }

  /** In every run and every half-open hour, an IP is served at most the cluster's rate. */
  lemma ServerRespectsRate(c: Cluster, vs: seq<Visit>, ip: string, from: int)
    requires forall i :: 0 < i < |vs| ==> vs[i - 1].now <= vs[i].now
    ensures InWindow(Get(Serve(c, vs).1, ip), from) <= RatePerHour(c)
    ensures RatePerHour(c) == if c == Testnet then 3 else if c == Mainnet then 0 else 10
  {
    ServerAgrees(c, vs);
    assert vs == [] ==> Agrees(Serve(c, vs).0, Serve(c, vs).1, RatePerHour(c), 0);
    assert Bounded(Get(Serve(c, vs).1, ip), RatePerHour(c));
  }

  /** After any run, the next visit is refused, and not recorded, exactly when the visits recorded
      for its IP in the last hour reach the cluster's rate. */
  lemma ServerRefusesIffFull(c: Cluster, vs: seq<Visit>, v: Visit)
    requires forall i :: 0 < i < |vs + [v]| ==> (vs + [v])[i - 1].now <= (vs + [v])[i].now
    ensures
      var (tracker, all) := Serve(c, vs);
      && (!Attempt(tracker, v.ip, RatePerHour(c), v.now, v.now).0 <==> |Prune(Get(all, v.ip), v.now)| >= RatePerHour(c))
      && (Serve(c, vs + [v]).1 == all <==> |Prune(Get(all, v.ip), v.now)| >= RatePerHour(c))
  {
    var all := vs + [v];
    assert all[..|vs|] == vs && all[|vs|] == v;
    assert forall i :: 0 <= i < |vs| ==> vs[i] == all[i];
    ServerAgrees(c, vs);
    var clock := if vs == [] then v.now else vs[|vs| - 1].now;
    assert vs != [] ==> all[|vs| - 1] == vs[|vs| - 1];
    var (tracker, recorded) := Serve(c, vs);
    RefusedIffFull(tracker, recorded, v.ip, RatePerHour(c), clock, v.now, v.now);
    assert Get(Recorded(recorded, v.ip, true, v.now), v.ip) == Get(recorded, v.ip) + [v.now];
  }
}
