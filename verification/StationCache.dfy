/**
 The bounded cache of last known station locations, against the map it stands for: the
 last location of every base callsign ever updated. Clock readings are numbers.
 */
module StationCache {
  import opened Common
  import opened Strings

  const EVICTION_COUNT: nat := 1000

  datatype Location = Location(country: string, state: Option<string>, updatedAt: int)

  type Locations = map<string, Location>

  // ---------------------------------------------------------------- the two maps

  datatype Update = Update(callsign: string, country: string, state: Option<string>, at: int)

  /** Updates without a callsign or a country are ignored. */
  predicate Counts(u: Update) { u.callsign != "" && u.country != "" }

  function LocationOf(u: Update): Location { Location(u.country, u.state, u.at) }

  /** The unbounded map after one more update. */
  function Remember(all: Locations, u: Update): Locations {
    if Counts(u) then all[BaseCall(u.callsign) := LocationOf(u)] else all
  }

  /** `rest` is what is left of a cache after its `count` oldest entries went. */
  ghost predicate Evicted(cache: Locations, rest: Locations, count: nat) {
    && rest.Keys <= cache.Keys && (forall k :: k in rest ==> rest[k] == cache[k])
    && |rest| == Max(|cache| - count, 0)
    && (forall gone, kept :: gone in cache && gone !in rest && kept in rest ==>
          cache[gone].updatedAt <= cache[kept].updatedAt)
  }

  /** One call of update() on a cache of at most `maxSize` entries. */
  ghost predicate Updated(cache: Locations, u: Update, after: Locations, maxSize: nat) {
    if !Counts(u) then after == cache
    else if |cache| >= maxSize && BaseCall(u.callsign) !in cache then
      exists rest: Locations {:trigger Evicted(cache, rest, EVICTION_COUNT)} ::
        Evicted(cache, rest, EVICTION_COUNT) && after == Remember(rest, u)
    else after == Remember(cache, u)
  }

  function Lookup(cache: Locations, callsign: string): Option<Location> {
    var base := BaseCall(callsign);
    if base != "" && base in cache then Some(cache[base]) else None
  }

  // ---------------------------------------------------------------- runs

  /** caches[0] is empty and caches[i+1] results from caches[i] by updates[i]. */
  ghost predicate IsRun(caches: seq<Locations>, updates: seq<Update>, maxSize: nat) {
    && |caches| == |updates| + 1 && caches[0] == map[]
    && forall i :: 0 <= i < |updates| ==> Updated(caches[i], updates[i], caches[i + 1], maxSize)
  }

  predicate ClockAdvances(updates: seq<Update>) {
    forall i, j :: 0 <= i < j < |updates| ==> updates[i].at < updates[j].at
  }

  function All(updates: seq<Update>): Locations {
    if updates == [] then map[]
    else Remember(All(updates[..|updates| - 1]), updates[|updates| - 1])
  }

  /** The i-th update is the last one with a country for a callsign of this base. */
  predicate IsLastUpdate(updates: seq<Update>, i: int, base: string) {
    && 0 <= i < |updates| && Names(updates[i], base)
    && forall j :: i < j < |updates| ==> !Names(updates[j], base)
  }

  predicate Names(u: Update, base: string) { u.callsign != "" && u.country != "" && BaseCall(u.callsign) == base }

  /** The whole map holds, for each base call, what its last update with a country said. */
  lemma {:induction false} AllHoldsLast(updates: seq<Update>, base: string)
    ensures base in All(updates) <==> exists i :: IsLastUpdate(updates, i, base)
    ensures forall i :: IsLastUpdate(updates, i, base) ==>
      base in All(updates)
      && All(updates)[base] == Location(updates[i].country, updates[i].state, updates[i].at)
  {
    if updates != [] {
      var n := |updates| - 1;
      AllHoldsLast(updates[..n], base);
      if Names(updates[n], base) {
        assert IsLastUpdate(updates, n, base);
      } else {
        forall i ensures IsLastUpdate(updates, i, base) <==> IsLastUpdate(updates[..n], i, base) {}
      }
    }
  }

  /** The cache is the most recently updated part of the whole map, with its values. */
  ghost predicate MostRecentPart(cache: Locations, all: Locations) {
    && cache.Keys <= all.Keys && (forall k :: k in cache ==> cache[k] == all[k])
    && (forall kept, gone :: kept in cache && gone in all && gone !in cache ==>
          all[gone].updatedAt < all[kept].updatedAt)
  }

  /** Between what an eviction leaves, and the capacity. */
  predicate SizeInBounds(cache: Locations, all: Locations, maxSize: nat) {
    Min(|all|, Max(maxSize - 1000, 0) + 1) <= |cache| <= Max(maxSize, 1)
  }

  predicate Distinct(all: Locations, before: int) {
    && (forall k :: k in all ==> all[k].updatedAt < before)
    && (forall k, l :: k in all && l in all && k != l ==> all[k].updatedAt != all[l].updatedAt)
  }

  lemma RememberSize(all: Locations, u: Update)
    ensures |Remember(all, u)| == |all| + (if Counts(u) && BaseCall(u.callsign) !in all then 1 else 0)
  {
    var base := BaseCall(u.callsign);
    if Counts(u) {
      if base in all {
        assert all[base := LocationOf(u)].Keys == all.Keys;
      } else {
        assert all[base := LocationOf(u)].Keys == all.Keys + {base};
      }
    }
  }

  /** Evicting the oldest keeps the most recent part most recent. */
  lemma EvictionKeepsRecent(cache: Locations, rest: Locations, all: Locations, now: int)
    requires MostRecentPart(cache, all) && Evicted(cache, rest, EVICTION_COUNT) && Distinct(all, now)
    ensures MostRecentPart(rest, all)
  {
    forall kept, gone | kept in rest && gone in all && gone !in rest
      ensures all[gone].updatedAt < all[kept].updatedAt
    {
      if gone in cache {
        assert cache[gone].updatedAt <= cache[kept].updatedAt;
      }
    }
  }

  lemma {:induction false} UpdateKeepsRecent(cache: Locations, all: Locations, u: Update)
    requires MostRecentPart(cache, all) && Distinct(all, u.at)
    ensures MostRecentPart(Remember(cache, u), Remember(all, u)) && Distinct(Remember(all, u), u.at + 1)
  {}

  lemma StepKeepsRecent(cache: Locations, u: Update, after: Locations, maxSize: nat, all: Locations)
    requires Updated(cache, u, after, maxSize)
    requires MostRecentPart(cache, all) && Distinct(all, u.at)
    ensures MostRecentPart(after, Remember(all, u))
  {
    if Counts(u) && |cache| >= maxSize && BaseCall(u.callsign) !in cache {
      var rest :| Evicted(cache, rest, EVICTION_COUNT) && after == Remember(rest, u);
      EvictionKeepsRecent(cache, rest, all, u.at);
      UpdateKeepsRecent(rest, all, u);
    } else {
      UpdateKeepsRecent(cache, all, u);
    }
  }

  lemma StepKeepsSize(cache: Locations, u: Update, after: Locations, maxSize: nat, all: Locations)
    requires Updated(cache, u, after, maxSize)
    requires cache.Keys <= all.Keys && SizeInBounds(cache, all, maxSize)
    ensures SizeInBounds(after, Remember(all, u), maxSize)
  {
    RememberSize(all, u);
    if Counts(u) && |cache| >= maxSize && BaseCall(u.callsign) !in cache {
      var rest :| Evicted(cache, rest, EVICTION_COUNT) && after == Remember(rest, u);
      RememberSize(rest, u);
    } else {
      RememberSize(cache, u);
    }
  }

  lemma {:induction false} AllDistinct(updates: seq<Update>, now: int)
    requires ClockAdvances(updates) && forall i :: 0 <= i < |updates| ==> updates[i].at < now
    ensures Distinct(All(updates), now)
    decreases |updates|
  {
    if updates != [] {
      var last := updates[|updates| - 1];
      AllDistinct(updates[..|updates| - 1], last.at);
      UpdateKeepsRecent(All(updates[..|updates| - 1]), All(updates[..|updates| - 1]), last);
    }
  }

  /**
   After any run of updates under an advancing clock, the cache holds exactly the K most
   recently updated base calls with their latest values, K between min(D, max(M-1000,0)+1)
   and max(M,1) for D distinct calls and capacity M.
   */
  lemma {:induction false} CacheIsMostRecent(caches: seq<Locations>, updates: seq<Update>, maxSize: nat)
    requires IsRun(caches, updates, maxSize) && ClockAdvances(updates)
    ensures MostRecentPart(caches[|updates|], All(updates))
    ensures SizeInBounds(caches[|updates|], All(updates), maxSize)
    decreases |updates|
  {
    if updates != [] {
      var n := |updates| - 1;
      CacheIsMostRecent(caches[..n + 1], updates[..n], maxSize);
      AllDistinct(updates[..n], updates[n].at);
      StepKeepsRecent(caches[n], updates[n], caches[n + 1], maxSize, All(updates[..n]));
      StepKeepsSize(caches[n], updates[n], caches[n + 1], maxSize, All(updates[..n]));
    }
  }

  /** A hit is never stale: it is the last location of that base call. */
  lemma HitIsLastLocation(caches: seq<Locations>, updates: seq<Update>, maxSize: nat, callsign: string)
    requires IsRun(caches, updates, maxSize) && ClockAdvances(updates)
    ensures Lookup(caches[|updates|], callsign).Some? ==>
      Lookup(caches[|updates|], callsign) == Lookup(All(updates), callsign)
  {
    CacheIsMostRecent(caches, updates, maxSize);
  }

  /** A hit is what the last update with a country said of the base call of that callsign. */
  lemma HitIsLastUpdate(caches: seq<Locations>, updates: seq<Update>, maxSize: nat, callsign: string)
    requires IsRun(caches, updates, maxSize) && ClockAdvances(updates)
    ensures var hit := Lookup(caches[|updates|], callsign);
            && (hit.Some? ==> exists i :: IsLastUpdate(updates, i, BaseCall(callsign)))
            && forall i :: hit.Some? && IsLastUpdate(updates, i, BaseCall(callsign)) ==>
                 hit.value == Location(updates[i].country, updates[i].state, updates[i].at)
  {
    HitIsLastLocation(caches, updates, maxSize, callsign);
    AllHoldsLast(updates, BaseCall(callsign));
  }

  /** A station whose base call was updated is found as long as it is in the cache. */
  lemma FoundIfCached(cache: Locations, callsign: string)
    requires BaseCall(callsign) in cache && callsign != "" && callsign[0] != '-'
    ensures Lookup(cache, callsign) == Some(cache[BaseCall(callsign)])
  {
    assert Before(callsign, '-') != "";
  }

  // ---------------------------------------------------------------- the object

  class StationLocationCache {
    var entries: Locations
    const maxSize: nat
    var hits: nat
    var misses: nat

    constructor (maxSize: nat)
      ensures entries == map[] && this.maxSize == maxSize && hits == 0 && misses == 0
    {
      entries, this.maxSize, hits, misses := map[], maxSize, 0, 0;
    }

    method Get(callsign: string) returns (location: Option<Location>)
      modifies this`hits, this`misses
      ensures location == Lookup(entries, callsign)
      ensures BaseCall(callsign) == "" ==> hits == old(hits) && misses == old(misses)
      ensures BaseCall(callsign) != "" ==>
        hits == old(hits) + (if location.Some? then 1 else 0) && misses == old(misses) + (if location.Some? then 0 else 1)
    {
      var base := BaseCall(callsign);
      if base == "" {
        return None;
      }
      if base in entries {
        hits := hits + 1;
        location := Some(entries[base]);
      } else {
        misses := misses + 1;
        location := None;
      }
    }

    method Put(callsign: string, country: string, state: Option<string>, now: int)
      modifies this`entries
      ensures Updated(old(entries), Update(callsign, country, state, now), entries, maxSize)
    {
      if callsign == "" || country == "" {
        return;
      }
      var base := BaseCall(callsign);
      if |entries| >= maxSize && base !in entries {
        EvictOldest(EVICTION_COUNT);
        assert Evicted(old(entries), entries, EVICTION_COUNT);
      }
      entries := entries[base := Location(country, state, now)];
    }

    /** Sorts the calls by age and deletes the first `count`. */
    method EvictOldest(count: nat)
      modifies this`entries
      ensures Evicted(old(entries), entries, count)
    {
      if entries == map[] {
        return;
      }
      var calls := ByAge(entries);
      DeleteFirst(calls, count);
      OldestGone(old(entries), calls, Min(count, |calls|), count);
    }

    method DeleteFirst(calls: seq<string>, count: nat)
      modifies this`entries
      ensures entries == old(entries) - Firsts(calls, Min(count, |calls|))
    {
      var n := 0;
      while n < count && n < |calls|
        invariant n <= count && n <= |calls|
        invariant entries == old(entries) - Firsts(calls, n)
      {
        RemoveNext(old(entries), calls, n);
        var call := calls[n];
        entries := entries - {call};
        n := n + 1;
      }
    }
  }

  function Firsts(calls: seq<string>, n: nat): set<string>
    requires n <= |calls|
  {
    set i | 0 <= i < n :: calls[i]
  }

  lemma RemoveNext(cache: Locations, calls: seq<string>, n: nat)
    requires n < |calls|
    ensures cache - Firsts(calls, n) - {calls[n]} == cache - Firsts(calls, n + 1)
  {
    assert Firsts(calls, n + 1) == Firsts(calls, n) + {calls[n]};
  }

  /** sorted(cache.keys(), key=age): each call once, the oldest first. */
  ghost predicate IsByAge(cache: Locations, calls: seq<string>) {
    && |calls| == |cache|
    && (forall i, j :: 0 <= i < j < |calls| ==> calls[i] != calls[j])
    && (forall k :: k in cache <==> k in calls)
    && (forall i, j :: 0 <= i < j < |calls| ==> cache[calls[i]].updatedAt <= cache[calls[j]].updatedAt)
  }

  lemma {:induction false} FirstsCount(calls: seq<string>, n: nat)
    requires n <= |calls| && forall i, j :: 0 <= i < j < |calls| ==> calls[i] != calls[j]
    ensures |Firsts(calls, n)| == n
  {
    if n > 0 {
      FirstsCount(calls, n - 1);
      assert Firsts(calls, n) == Firsts(calls, n - 1) + {calls[n - 1]};
    }
  }

  lemma GoneCount(cache: Locations, calls: seq<string>, n: nat)
    requires IsByAge(cache, calls) && n <= |calls|
    ensures |cache - Firsts(calls, n)| == |cache| - n
  {
    var gone, rest := Firsts(calls, n), cache - Firsts(calls, n);
    FirstsCount(calls, n);
    assert gone <= cache.Keys && rest.Keys == cache.Keys - gone;
    assert |rest| == |rest.Keys| && |cache| == |cache.Keys|;
  }

  lemma GoneAreOlder(cache: Locations, calls: seq<string>, n: nat, gone: string, kept: string)
    requires IsByAge(cache, calls) && n <= |calls|
    requires gone in Firsts(calls, n) && kept in cache && kept !in Firsts(calls, n)
    ensures gone in cache && cache[gone].updatedAt <= cache[kept].updatedAt
  {
    var i :| 0 <= i < n && calls[i] == gone;
    var j :| 0 <= j < |calls| && calls[j] == kept;
    assert j >= n;
  }

  /** Deleting the first n calls of the sorted list evicts the n oldest. */
  lemma OldestGone(cache: Locations, calls: seq<string>, n: nat, count: nat)
    requires IsByAge(cache, calls) && n == Min(count, |calls|)
    ensures Evicted(cache, cache - Firsts(calls, n), count)
  {
    GoneCount(cache, calls, n);
    forall gone, kept | gone in cache && gone !in cache - Firsts(calls, n) && kept in cache - Firsts(calls, n)
      ensures cache[gone].updatedAt <= cache[kept].updatedAt
    {
      GoneAreOlder(cache, calls, n, gone, kept);
    }
  }

  method ByAge(cache: Locations) returns (calls: seq<string>)
    ensures IsByAge(cache, calls)
  {
    calls := [];
    var todo := cache.Keys;
    while todo != {}
      invariant todo <= cache.Keys && |calls| + |todo| == |cache|
      invariant forall k :: k in cache && k !in todo <==> k in calls
      invariant forall i, j :: 0 <= i < j < |calls| ==> calls[i] != calls[j]
      invariant forall i :: 0 <= i < |calls| ==> calls[i] in cache
      invariant forall i, j :: 0 <= i < j < |calls| ==> cache[calls[i]].updatedAt <= cache[calls[j]].updatedAt
      invariant forall i, k :: 0 <= i < |calls| && k in todo ==> cache[calls[i]].updatedAt <= cache[k].updatedAt
      decreases |todo|
    {
      var oldest := Oldest(cache, todo);
      calls := calls + [oldest];
      todo := todo - {oldest};
    }
  }

  method Oldest(cache: Locations, calls: set<string>) returns (oldest: string)
    requires calls != {} && calls <= cache.Keys
    ensures oldest in calls && forall k :: k in calls ==> cache[oldest].updatedAt <= cache[k].updatedAt
  {
    oldest :| oldest in calls;
    var todo := calls - {oldest};
    while todo != {}
      invariant todo <= calls && oldest in calls
      invariant forall k :: k in calls && k !in todo ==> cache[oldest].updatedAt <= cache[k].updatedAt
      decreases |todo|
    {
      var k :| k in todo;
      todo := todo - {k};
      if cache[k].updatedAt < cache[oldest].updatedAt {
        oldest := k;
      }
    }
  }
}
