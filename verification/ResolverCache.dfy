/** `dns64.Resolver`: the answer cache, its eviction, and the sharing of queries in flight. Times are
    in seconds. */
module ResolverCache {
  import opened Wrappers
  import opened FiniteSets
  import opened Prefixes

  datatype Key = Key(name: string, record: nat)

  datatype Entry = Entry(addresses: seq<Address>, source: string, expires: int)

  datatype Answer = Answer(addresses: seq<Address>, ttl: int)

  const MINIMUM_TTL := 30
  const MAXIMUM_TTL := 600
  const NEGATIVE_TTL := 30
  const DEFAULT_CACHE_MAX_ENTRIES := 4096

  type Cache = map<Key, Entry>

  function ClampTtl(ttl: int): (r: int)
    ensures MINIMUM_TTL <= r <= MAXIMUM_TTL
    ensures MINIMUM_TTL <= ttl <= MAXIMUM_TTL ==> r == ttl
  {
    if ttl < MINIMUM_TTL then MINIMUM_TTL else if ttl > MAXIMUM_TTL then MAXIMUM_TTL else ttl
  }

  /** Without an address the text was no literal IPv6 address. */
  datatype Endpoint = Endpoint(name: string, address: Option<Address>, port: nat, serverName: string)

  predicate EndpointOk(e: Endpoint) { e.name != "" && e.address.Some? && e.port != 0 && e.serverName != "" }

  ghost predicate EndpointsOk(endpoints: seq<Endpoint>) {
    && endpoints != []
    && forall e :: e in endpoints ==> e.name != "" && e.serverName != "" && e.port != 0 && e.address.Some?
  }

  // ---- what an eviction may do ----

  predicate Expired(e: Entry, now: int) { e.expires <= now }

  /** `after` is `before` without some victims: the new entry stays, no victim expires later than
      another survivor, and nothing fresh goes unless the cache is full without it. */
  ghost predicate Evicted(before: Cache, after: Cache, keep: Key, now: int, limit: nat) {
    && (forall k :: k in after ==> k in before && after[k] == before[k])
    && (keep in before ==> keep in after)
    && (forall v, s :: v in before && v !in after && s in after && s != keep ==> before[v].expires <= before[s].expires)
    && ((exists v :: v in before && v !in after && !Expired(before[v], now)) ==> |after| == limit)
  }

  lemma SmallerMap<K, V>(m: map<K, V>, k: K)
    requires k in m
    ensures |m - {k}| == |m| - 1
  {
    assert m.Keys == (m - {k}).Keys + {k};
  }

  lemma OnlyKey<K, V>(m: map<K, V>, k: K)
    requires forall j :: j in m ==> j == k
    ensures |m| <= 1
  {
    SubsetSize(m.Keys, {k});
  }

  class Resolver {
    var endpoints: seq<Endpoint>
    var cache: Cache
    const cacheMaxEntries: nat
    /** The query in flight for each key. */
    var inFlight: map<Key, nat>
    var calls: nat

    /** The cache never outgrows its limit. */
    ghost predicate Valid()
      reads this
    {
      cacheMaxEntries >= 1 && |cache| <= cacheMaxEntries && forall k :: k in inFlight ==> inFlight[k] < calls
    }

    constructor (endpoints: seq<Endpoint>)
      ensures Valid() && cache == map[] && inFlight == map[] && this.endpoints == endpoints
              && cacheMaxEntries == DEFAULT_CACHE_MAX_ENTRIES
    {
      this.endpoints, cache, inFlight, calls, cacheMaxEntries := endpoints, map[], map[], 0, DEFAULT_CACHE_MAX_ENTRIES;
    }

    static method NewResolver(endpoints: seq<Endpoint>) returns (r: Option<Resolver>)
      ensures r.Some? <==> EndpointsOk(endpoints)
      ensures r.Some? ==> fresh(r.value) && r.value.Valid() && r.value.endpoints == endpoints && r.value.cache == map[]
    {
      var ok := ValidateEndpoints(endpoints);
      if !ok { return None; }
      var resolver := new Resolver(endpoints);
      return Some(resolver);
    }

    /** The cache starts over with endpoints that pass the check; others change nothing. */
    method UpdateEndpoints(endpoints: seq<Endpoint>) returns (ok: bool)
      requires Valid()
      modifies this`endpoints, this`cache
      ensures Valid() && (ok <==> EndpointsOk(endpoints))
      ensures ok ==> this.endpoints == endpoints && cache == map[]
      ensures !ok ==> this.endpoints == old(this.endpoints) && cache == old(cache)
    {
      ok := ValidateEndpoints(endpoints);
      if ok { this.endpoints, cache := endpoints, map[]; }
    }

    static method ValidateEndpoints(endpoints: seq<Endpoint>) returns (ok: bool)
      ensures ok <==> EndpointsOk(endpoints)
    {
      if endpoints == [] { return false; }
      for i := 0 to |endpoints|
        invariant forall j :: 0 <= j < i ==> EndpointOk(endpoints[j])
      {
        assert endpoints[i] in endpoints;
        if !EndpointOk(endpoints[i]) { return false; }
      }
      return true;
    }

    /** A fresh entry answers at once. */
    method Peek(key: Key, now: int) returns (hit: Option<Entry>)
      ensures hit.Some? <==> key in cache && cache[key].expires > now
      ensures hit.Some? ==> hit.value == cache[key]
    {
      if key in cache && now < cache[key].expires { return Some(cache[key]); }
      return None;
    }

    /** Joins the query in flight, or leads a new one: a key is never queried twice at a time. */
    method BeginLookup(key: Key) returns (call: nat, leader: bool)
      requires Valid()
      modifies this`inFlight, this`calls
      ensures Valid() && (leader <==> key !in old(inFlight))
      ensures key in inFlight && call == inFlight[key] && inFlight == old(inFlight)[key := call]
      ensures !leader ==> call == old(inFlight)[key]
      ensures leader ==> forall k :: k in old(inFlight) ==> old(inFlight)[k] != call
    {
      if key in inFlight {
        assert inFlight == inFlight[key := inFlight[key]];
        return inFlight[key], false;
      }
      call, leader := calls, true;
      inFlight, calls := inFlight[key := call], calls + 1;
    }

    /** The first endpoint that answers decides; `answers` are what the endpoints would say. */
    static method QueryEndpoints(endpoints: seq<Endpoint>, answers: seq<Option<Answer>>, now: int)
      returns (r: Option<Entry>)
      requires |answers| == |endpoints|
      ensures r.None? <==> forall i :: 0 <= i < |answers| ==> answers[i].None?
      ensures r.Some? ==>
                exists i :: 0 <= i < |answers| && answers[i].Some? && (forall j :: 0 <= j < i ==> answers[j].None?)
                  && r.value.addresses == answers[i].value.addresses && r.value.source == endpoints[i].name
                  && r.value.expires ==
                       now + if answers[i].value.addresses == [] then NEGATIVE_TTL else ClampTtl(answers[i].value.ttl)
      ensures r.Some? ==> now + MINIMUM_TTL <= r.value.expires <= now + MAXIMUM_TTL
    {
      for i := 0 to |endpoints|
        invariant forall j :: 0 <= j < i ==> answers[j].None?
      {
        if answers[i].None? { continue; }
        var answer := answers[i].value;
        var ttl := if |answer.addresses| == 0 then NEGATIVE_TTL else ClampTtl(answer.ttl);
        return Some(Entry(answer.addresses, endpoints[i].name, now + ttl));
      }
      return None;
    }

    /** The leader's answer goes into the cache, the bound is restored, and the query is over. */
    method FinishLookup(key: Key, answer: Option<Entry>, now: int)
      requires Valid() && key in inFlight
      modifies this`cache, this`inFlight
      ensures Valid() && inFlight == old(inFlight) - {key}
      ensures answer.None? ==> cache == old(cache)
      ensures answer.Some? ==> key in cache && cache[key] == answer.value
                               && Evicted(old(cache)[key := answer.value], cache, key, now, cacheMaxEntries)
    {
      if answer.Some? {
        cache := cache[key := answer.value];
        Evict(key, now);
      }
      inFlight := inFlight - {key};
    }

    /** `evictLocked`: expired entries first, then the ones expiring soonest. */
    method Evict(keep: Key, now: int)
      requires cacheMaxEntries >= 1 && keep in cache
      modifies this`cache
      ensures |cache| <= cacheMaxEntries && Evicted(old(cache), cache, keep, now, cacheMaxEntries)
      ensures |old(cache)| <= cacheMaxEntries ==> cache == old(cache)
    {
      if |cache| <= cacheMaxEntries { return; }
      DropExpired(keep, now);
      while |cache| > cacheMaxEntries
        invariant Evicted(old(cache), cache, keep, now, |cache|)
        invariant forall k :: k in cache && k != keep ==> !Expired(cache[k], now)
        invariant (exists v :: v in old(cache) && v !in cache && !Expired(old(cache)[v], now)) ==>
                  |cache| >= cacheMaxEntries
        decreases |cache|
      {
        var victim := Soonest(keep);
        SmallerMap(cache, victim);
        cache := cache - {victim};
      }
    }

    /** One pass over the cache. */
    method DropExpired(keep: Key, now: int)
      modifies this`cache
      ensures forall k :: k in old(cache) && k !in cache ==> k != keep && old(cache)[k].expires <= now
      ensures cache == map k | k in old(cache) && (k == keep || !Expired(old(cache)[k], now)) :: old(cache)[k]
    {
      var pending := cache.Keys;
      while pending != {}
        invariant pending <= old(cache).Keys
        invariant cache == map k | k in old(cache)
                  && (k in pending || k == keep || !Expired(old(cache)[k], now)) :: old(cache)[k]
        decreases |pending|
      {
        var k :| k in pending;
        pending := pending - {k};
        if k != keep && !(now < cache[k].expires) { cache := cache - {k}; }
      }
    }

    /** The entry other than `keep` that expires first; there is one when the cache is over its limit. */
    method Soonest(keep: Key) returns (victim: Key)
      requires |cache| > cacheMaxEntries >= 1
      ensures victim in cache && victim != keep
      ensures forall k :: k in cache && k != keep ==> cache[victim].expires <= cache[k].expires
    {
      var pending := cache.Keys;
      var found: Option<Key> := None;
      while pending != {}
        invariant pending <= cache.Keys
        invariant found.None? ==> forall k :: k in cache && k !in pending ==> k == keep
        invariant found.Some? ==> found.value in cache && found.value != keep
        invariant found.Some? ==> forall k :: k in cache && k !in pending && k != keep ==>
                  cache[found.value].expires <= cache[k].expires
        decreases |pending|
      {
        var k :| k in pending;
        pending := pending - {k};
        if k == keep { continue; }
        if found.None? || cache[k].expires < cache[found.value].expires { found := Some(k); }
      }
      if found.None? {
        OnlyKey(cache, keep);
        assert false;
      }
      victim := found.value;
    }
  }
}
