/** player/decrypted_cache.go and player/hot_cache.go: the two shared caches, as one caller sees them while
    other callers, prefetchers and evictions run in between.  The concurrent protocol itself is in Flights. */
module Caches {
  import opened Common
  import opened Origin

  class DecryptedCache {
    const world: World
    /** The read-through store on disk. */
    var cache: map<string, Bytes>
    /** The calls of this caller, in order, and those of them that were answered without an error. */
    ghost var calls: seq<string>
    ghost var answers: seq<string>

    ghost predicate Valid()
      reads `cache
    {
      world.DiskAgrees(cache)
    }

    constructor (world: World)
      ensures Valid() && this.world == world && answers == []
    {
      this.world, cache, calls, answers := world, map[], [], [];
    }

    /** The caching store's Get: what is stored, or else what the miss function returns, which is then stored. */
    method Get(hash: string, use: Use) returns (r: Option<Bytes>)
      requires Valid() && world.Conforms(Request(hash, use))
      modifies `cache
      ensures Valid()
      ensures r.Some? ==> hash in world.blobs && r == world.GetFunc(use, Some(world.blobs[hash]))
      ensures hash in world.reliable && hash in world.blobs ==> r == world.GetFunc(use, Some(world.blobs[hash]))
      ensures hash in old(cache) ==> r == Some(old(cache)[hash])
      ensures cache == if r.Some? then old(cache)[hash := r.value] else old(cache)
    {
      if hash in cache {
        SameTruth(world, Request(hash, use));
        assert cache == cache[hash := cache[hash]];
        return Some(cache[hash]);
      }
      var up: bool := *;
      var fetched := if hash in world.blobs && (up || hash in world.reliable) then Some(world.blobs[hash]) else None;
      r := world.GetFunc(use, fetched);
      if r.Some? {
        FetchedIsTrue(world, Request(hash, use), fetched);
        cache := cache[hash := r.value];
      }
    }

    method GetSDBlob(hash: string) returns (r: Option<SDBlob>)
      requires Valid() && world.Conforms(Request(hash, AsSD))
      modifies this
      ensures Valid()
      ensures r.Some? ==> world.Truth(Request(hash, AsSD)) == Some(SizedSD(r.value))
      ensures hash in world.reliable && r.None? ==> world.Truth(Request(hash, AsSD)).None?
      ensures calls == old(calls) + [hash]
      ensures answers == old(answers) + if r.Some? then [hash] else []
    {
      calls := calls + [hash];
      var cached := Get(hash, AsSD);
      if cached.None? {
        return None;
      }
      r := world.parse(cached.value);
      answers := answers + if r.Some? then [hash] else [];
    }

    method GetChunk(hash: string, key: Bytes, iv: Bytes) returns (r: Option<Bytes>)
      requires Valid() && world.Conforms(Request(hash, AsChunk(key, iv)))
      modifies this
      ensures Valid()
      ensures r.Some? ==> world.Truth(Request(hash, AsChunk(key, iv))) == Some(SizedSlice(r.value))
      ensures hash in world.reliable && r.None? ==> world.Truth(Request(hash, AsChunk(key, iv))).None?
      ensures calls == old(calls) + [hash]
      ensures answers == old(answers) + if r.Some? then [hash] else []
    {
      calls := calls + [hash];
      r := Get(hash, AsChunk(key, iv));
      answers := answers + if r.Some? then [hash] else [];
    }
  }

  lemma OneMoreEntry(m: map<string, Item>, hash: string, item: Item)
    ensures |m[hash := item]| == |m| + if hash in m then 0 else 1
  {
    var more := m[hash := item];
    assert more.Keys == m.Keys + {hash};
    assert |m.Keys| == |m| && |more.Keys| == |more|;
  }

  class HotCache {
    const origin: DecryptedCache
    const maxSizeInBytes: nat
    var cache: map<string, Item>
    /** What this caller did, in order: the hashes it looked up, those of them that it found, those whose flight it
        joined, and those that it stored. */
    ghost var lookups: seq<string>
    ghost var hits: seq<string>
    ghost var joins: seq<string>
    ghost var stores: seq<string>

    /** The caches agree with the origin, and this caller stored what the origin answered it, each answer once. */
    ghost predicate Valid()
      reads `cache, `stores, origin`cache, origin`answers
    {
      && 1 <= HotCapacity(maxSizeInBytes)
      && CachesAgree(origin.world, maxSizeInBytes, cache, origin.cache)
      && stores == origin.answers
    }

    /** The cache library refuses to build a cache without room for one entry. */
    constructor (origin: DecryptedCache, maxSizeInBytes: nat)
      requires origin.Valid() && origin.answers == [] && 1 <= HotCapacity(maxSizeInBytes)
      ensures Valid() && this.origin == origin && this.maxSizeInBytes == maxSizeInBytes
      ensures cache == map[]
    {
      this.origin, this.maxSizeInBytes, cache := origin, maxSizeInBytes, map[];
      lookups, hits, joins, stores := [], [], [], [];
    }

    /** Any number of steps of other callers, prefetchers, the evictor and the disk cleaner.  All of them keep
        both caches in agreement with the origin: that is Flights.StepKeepsInv. */
    method Interfere()
      requires CachesAgree(origin.world, maxSizeInBytes, cache, origin.cache)
      modifies `cache, origin`cache
      ensures CachesAgree(origin.world, maxSizeInBytes, cache, origin.cache)
    {
      var hot: map<string, Item> :| origin.world.HotAgrees(hot) && |hot| <= HotCapacity(maxSizeInBytes);
      var disk: map<string, Bytes> :| origin.world.DiskAgrees(disk);
      cache := hot;
      origin.cache := disk;
    }

    /** The cache library's Get. */
    method Lookup(hash: string) returns (item: Option<Item>)
      modifies `lookups, `hits
      ensures item == if hash in cache then Some(cache[hash]) else None
      ensures lookups == old(lookups) + [hash]
      ensures hits == old(hits) + if item.Some? then [hash] else []
    {
      item := if hash in cache then Some(cache[hash]) else None;
      lookups := lookups + [hash];
      hits := hits + if item.Some? then [hash] else [];
    }

    /** Stores an entry, evicting whatever the replacement policy chooses, but only once the cache is full. */
    method Set(hash: string, item: Item)
      requires 1 <= HotCapacity(maxSizeInBytes)
      requires CachesAgree(origin.world, maxSizeInBytes, cache, origin.cache) && hash in origin.world.blobs
      requires origin.world.Truth(Request(hash, origin.world.use(hash))) == Some(item)
      modifies `cache, `stores
      ensures CachesAgree(origin.world, maxSizeInBytes, cache, origin.cache)
      ensures hash in cache && cache[hash] == item
      ensures forall h :: h in cache && h != hash ==> h in old(cache) && cache[h] == old(cache)[h]
      ensures hash in old(cache) || |old(cache)| < HotCapacity(maxSizeInBytes) ==> cache == old(cache)[hash := item]
      ensures stores == old(stores) + [hash]
    {
      if hash in cache || |cache| < HotCapacity(maxSizeInBytes) {
        OneMoreEntry(cache, hash, item);
        cache := cache[hash := item];
      } else {
        var none: map<string, Item> := map[];
        assert |none| < HotCapacity(maxSizeInBytes);
        var left: map<string, Item> :|
          && |left| < HotCapacity(maxSizeInBytes)
          && (forall h :: h in left ==> h in cache && cache[h] == left[h]);
        OneMoreEntry(left, hash, item);
        cache := left[hash := item];
      }
      stores := stores + [hash];
    }

    /** Whether another caller's flight for the hash is under way, and if so what it will land with:
        any outcome that Flights.LandedIsTrue allows. */
    method JoinedFlight(hash: string) returns (joined: bool, outcome: Option<Item>)
      modifies `joins
      ensures joins == old(joins) + if joined then [hash] else []
      ensures outcome.Some? || hash in origin.world.reliable ==>
                origin.world.Truth(Request(hash, origin.world.use(hash))) == outcome
    {
      joined := *;
      joins := joins + if joined then [hash] else [];
      var failed: bool := *;
      outcome := if failed && hash !in origin.world.reliable then None
                 else origin.world.Truth(Request(hash, origin.world.use(hash)));
    }

    method GetSDBlob(hash: string) returns (r: Option<SDBlob>)
      requires Valid() && origin.world.Conforms(Request(hash, AsSD))
      modifies this, origin
      ensures Valid()
      ensures r.Some? ==> origin.world.Truth(Request(hash, AsSD)) == Some(SizedSD(r.value))
      ensures hash in origin.world.reliable && r.None? ==> origin.world.Truth(Request(hash, AsSD)).None?
      ensures lookups == old(lookups) + [hash]
      ensures || (hits == old(hits) + [hash] && r.Some? && joins == old(joins) && origin.calls == old(origin.calls))
              || (hits == old(hits) && joins == old(joins) + [hash] && origin.calls == old(origin.calls))
              || (hits == old(hits) && joins == old(joins) && origin.calls == old(origin.calls) + [hash])
    {
      SameTruth(origin.world, Request(hash, AsSD));
      Interfere();
      var item := Lookup(hash);
      if item.Some? {
        Interfere();
        match item.value {
          case SizedSD(sd) => return Some(sd);
          case SizedSlice(_) => assert false;
        }
      }
      Interfere();
      r := GetSDFromOrigin(hash);
    }

    /** Joins the flight for the hash, or else leads one: then the origin's answer is stored before it is returned. */
    method GetSDFromOrigin(hash: string) returns (r: Option<SDBlob>)
      requires Valid() && origin.world.Conforms(Request(hash, AsSD))
      modifies `cache, `joins, `stores, origin
      ensures Valid()
      ensures r.Some? ==> origin.world.Truth(Request(hash, AsSD)) == Some(SizedSD(r.value))
      ensures hash in origin.world.reliable && r.None? ==> origin.world.Truth(Request(hash, AsSD)).None?
      ensures || (joins == old(joins) + [hash] && origin.calls == old(origin.calls) && stores == old(stores))
              || (&& joins == old(joins) && origin.calls == old(origin.calls) + [hash]
                  && stores == old(stores) + if r.Some? then [hash] else [])
    {
      SameTruth(origin.world, Request(hash, AsSD));
      var joined, outcome := JoinedFlight(hash);
      if joined {
        Interfere();
        match outcome {
          case None => return None;
          case Some(SizedSD(sd)) => return Some(sd);
          case Some(SizedSlice(_)) => assert false;
        }
      }
      r := origin.GetSDBlob(hash);
      if r.Some? {
        Interfere();
        Set(hash, SizedSD(r.value));
      }
      Interfere();
    }

    method GetChunk(hash: string, key: Bytes, iv: Bytes) returns (r: Option<Bytes>)
      requires Valid() && origin.world.Conforms(Request(hash, AsChunk(key, iv)))
      modifies this, origin
      ensures Valid()
      ensures r.Some? ==> origin.world.Truth(Request(hash, AsChunk(key, iv))) == Some(SizedSlice(r.value))
      ensures hash in origin.world.reliable && r.None? ==> origin.world.Truth(Request(hash, AsChunk(key, iv))).None?
      ensures lookups == old(lookups) + [hash]
      ensures || (hits == old(hits) + [hash] && r.Some? && joins == old(joins) && origin.calls == old(origin.calls))
              || (hits == old(hits) && joins == old(joins) + [hash] && origin.calls == old(origin.calls))
              || (hits == old(hits) && joins == old(joins) && origin.calls == old(origin.calls) + [hash])
    {
      SameTruth(origin.world, Request(hash, AsChunk(key, iv)));
      Interfere();
      var item := Lookup(hash);
      if item.Some? {
        Interfere();
        match item.value {
          case SizedSlice(bytes) => return Some(bytes);
          case SizedSD(_) => assert false;
        }
      }
      Interfere();
      r := GetChunkFromOrigin(hash, key, iv);
    }

    /** Joins the flight for the hash, or else leads one: then the origin's answer is stored before it is returned. */
    method GetChunkFromOrigin(hash: string, key: Bytes, iv: Bytes) returns (r: Option<Bytes>)
      requires Valid() && origin.world.Conforms(Request(hash, AsChunk(key, iv)))
      modifies `cache, `joins, `stores, origin
      ensures Valid()
      ensures r.Some? ==> origin.world.Truth(Request(hash, AsChunk(key, iv))) == Some(SizedSlice(r.value))
      ensures hash in origin.world.reliable && r.None? ==> origin.world.Truth(Request(hash, AsChunk(key, iv))).None?
      ensures || (joins == old(joins) + [hash] && origin.calls == old(origin.calls) && stores == old(stores))
              || (&& joins == old(joins) && origin.calls == old(origin.calls) + [hash]
                  && stores == old(stores) + if r.Some? then [hash] else [])
    {
      SameTruth(origin.world, Request(hash, AsChunk(key, iv)));
      var joined, outcome := JoinedFlight(hash);
      if joined {
        Interfere();
        match outcome {
          case None => return None;
          case Some(SizedSlice(bytes)) => return Some(bytes);
          case Some(SizedSD(_)) => assert false;
        }
      }
      r := origin.GetChunk(hash, key, iv);
      if r.Some? {
        Interfere();
        Set(hash, SizedSlice(r.value));
      }
      Interfere();
    }

    method IsCached(hash: string) returns (has: bool)
      requires Valid()
      ensures has <==> hash in cache
    {
      has := hash in cache;
    }
  }
}
