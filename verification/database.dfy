/**
 * `AppState`: the in-memory cache in front of the Redis store, with the
 * background flusher's liveness. Each operation updates the fields in place
 * and is proved to leave them as the corresponding `Policy` function says.
 *
 * `store` is the keyspace of the Redis server behind `connection`. The two
 * `...Owned` flags say whether a strong handle to the cache and to the
 * connection still exists, i.e. whether the flusher's weak handles upgrade.
 */
module Database {
  import opened Wrappers
  import opened Models
  import opened Namespace
  import opened Policy

  class AppState {
    var cache: map<string, Shortlink>
    var store: map<string, JsonObject>
    var cacheOwned: bool
    var connectionOwned: bool
    var flusherRunning: bool

    /** The flusher only stops once a handle is gone, and the cache and store stay consistent. */
    ghost predicate Valid()
      reads this
    {
      Consistent(State()) && (flusherRunning || !(cacheOwned && connectionOwned))
    }

    /** The coordinator state the `Policy` functions describe. */
    function State(): Db
      reads this
    {
      Db(cache, store)
    }

    /** A connected state with an empty cache and a running flusher. */
    constructor (redis: map<string, JsonObject>)
      requires StoreKeyed(redis)
      ensures Valid()
      ensures cache == map[] && store == redis
      ensures cacheOwned && connectionOwned && flusherRunning
    {
      cache := map[];
      store := redis;
      cacheOwned, connectionOwned := true, true;
      flusherRunning := true;
    }

    /** `AppState::new`: fails with `UnableToConnect` when the connection cannot be made. */
    static method New(redis: map<string, JsonObject>, connectFails: bool) returns (r: Result<AppState>)
      requires StoreKeyed(redis)
      ensures r.Err? <==> connectFails
      ensures r.Err? ==> r.error == UnableToConnect
      ensures r.Ok? ==> fresh(r.value) && r.value.Valid()
      ensures r.Ok? ==> r.value.cache == map[] && r.value.store == redis
      ensures r.Ok? ==> r.value.cacheOwned && r.value.connectionOwned && r.value.flusherRunning
    {
      if connectFails {
        return Err(UnableToConnect);
      }
      var state := new AppState(redis);
      return Ok(state);
    }

    /** `get_shortlink`: the cache first; on a miss, `GET sl::keyword` and cache what was found. */
    method GetShortlink(keyword: string, getFails: bool) returns (r: Result<Option<Shortlink>>)
      requires Valid()
      modifies this`cache
      ensures Valid()
      ensures Reply(r, State()) == Policy.GetShortlink(old(State()), keyword, getFails)
    {
      GetShortlinkKeepsConsistent(State(), keyword, getFails);
      if keyword in cache {
        return Ok(Some(cache[keyword]));
      }
      if getFails {
        return Err(FailedToQueryRedis);
      }
      r := StoreGet(store, NamespacedKey(keyword));
      if r.Ok? && r.value.Some? {
        cache := cache[keyword := r.value.value];
      }
    }

    /** `hit_shortlink`: resolve the record, then put it back with one more hit into the cache only. */
    method HitShortlink(keyword: string, getFails: bool) returns (outcome: HitOutcome)
      requires Valid()
      modifies this`cache
      ensures Valid()
      ensures Reply(outcome, State()) == Policy.HitShortlink(old(State()), keyword, getFails)
    {
      HitKeepsConsistent(State(), keyword, getFails);
      var found := GetShortlink(keyword, getFails);
      match found
      case Err(e) =>
        return Failed(e);
      case Ok(None) =>
        return CannotFindShortlink;
      case Ok(Some(shortlink)) =>
        cache := cache[keyword := shortlink.(hits := shortlink.hits + 1)];
        return Counted;
    }

    /** `store_shortlink`: keep the cached hits, write through to the store, then update the cache. */
    method StoreShortlink(shortlink: Shortlink, writeFails: bool) returns (r: Result<()>)
      requires Valid()
      modifies this`cache, this`store
      ensures Valid()
      ensures Reply(r, State()) == Policy.StoreShortlink(old(State()), shortlink, writeFails)
    {
      StoreShortlinkKeepsConsistent(State(), shortlink, writeFails);
      var s := shortlink;
      if s.keyword in cache {
        s := s.(hits := cache[s.keyword].hits);
      }
      if writeFails {
        return Err(FailedToQueryRedis);
      }
      store := Apply(store, SetKeyInRedis(s));
      cache := cache[s.keyword := s];
      return Ok(());
    }

    /**
     * `get_all_shortlinks`, given the reply `keys` to `KEYS sl::*`. Changes nothing;
     * fails when either command fails or any fetched value does not decode.
     */
    method GetAllShortlinks(keys: seq<string>, keysFail: bool, mgetFails: bool) returns (r: Result<seq<Shortlink>>)
      requires Valid()
      requires IsKeysReply(keys, store)
      ensures keysFail ==> r == Err(FailedToQueryRedis)
      ensures !keysFail && keys == [] ==> r == Ok([])
      ensures r.Err? ==> r.error == FailedToQueryRedis
      ensures r.Err? <==> keysFail || (keys != [] && (mgetFails || exists i :: 0 <= i < |keys| && Decode(store[keys[i]]).None?))
      ensures r.Ok? ==> |r.value| == |keys|
      ensures r.Ok? ==> forall i :: 0 <= i < |keys| ==>
                (StripPrefix(keys[i]) in cache ==> r.value[i] == cache[StripPrefix(keys[i])])
                && (StripPrefix(keys[i]) !in cache ==> Decode(store[keys[i]]) == Some(r.value[i]))
      ensures r.Ok? ==> forall i :: 0 <= i < |keys| ==>
                Policy.GetShortlink(State(), StripPrefix(keys[i]), false).result == Ok(Some(r.value[i]))
    {
      if keysFail {
        return Err(FailedToQueryRedis);
      }
      if |keys| == 0 {
        return Ok([]);
      }
      if mgetFails {
        return Err(FailedToQueryRedis);
      }
      var values := MGet(store, keys);
      var fetched := DecodeAll(values);
      if fetched.None? {
        return Err(FailedToQueryRedis);
      }
      var merged := Merge(keys, fetched.value, cache);
      forall i | 0 <= i < |keys|
        ensures Policy.GetShortlink(State(), StripPrefix(keys[i]), false).result == Ok(Some(merged[i]))
      {
        MergeAgreesWithLookup(State(), keys, fetched.value, i);
      }
      return Ok(merged);
    }

    /**
     * One pass of the flusher's loop. If both handles upgrade, every cache entry
     * not in `dropped` is written to the store and the loop goes on; otherwise the
     * loop ends and nothing is written. Iteration order is left open.
     */
    method FlushTick(dropped: set<string>) returns (keepRunning: bool)
      requires Valid() && flusherRunning
      modifies this`store, this`flusherRunning
      ensures Valid()
      ensures keepRunning == (cacheOwned && connectionOwned) && flusherRunning == keepRunning
      ensures keepRunning ==> State() == FlushSweep(old(State()), dropped)
      ensures !keepRunning ==> store == old(store)
    {
      if !(cacheOwned && connectionOwned) {
        flusherRunning := false;
        return false;
      }
      SweepKeepsConsistent(State(), dropped);
      ghost var before := State();
      SendEntries(dropped);
      assert State() == FlushSweep(before, dropped);
      return true;
    }

    /** The inner `for` of the flusher: send `SET` for every cache entry outside `dropped`, in any order. */
    method SendEntries(dropped: set<string>)
      requires CacheKeyed(cache)
      modifies this`store
      ensures store == old(store) + Written(cache, cache.Keys - dropped)
    {
      var pending := cache.Keys;
      ghost var done: set<string> := {};
      assert Written(cache, done) == map[];
      while pending != {}
        invariant pending <= cache.Keys && pending !! done
        invariant done == (cache.Keys - pending) - dropped
        invariant store == old(store) + Written(cache, done)
        decreases pending
      {
        var k :| k in pending;
        if k !in dropped {
          WrittenStep(old(store), cache, done, k);
          store := Apply(store, SetKeyInRedis(cache[k]));
          done := done + {k};
        }
        pending := pending - {k};
      }
      assert done == cache.Keys - dropped;
    }

    /** The last owner of the cache and/or of the connection goes away. */
    method Release(releaseCache: bool, releaseConnection: bool)
      requires Valid()
      modifies this`cacheOwned, this`connectionOwned
      ensures Valid()
      ensures cacheOwned == (old(cacheOwned) && !releaseCache)
      ensures connectionOwned == (old(connectionOwned) && !releaseConnection)
    {
      if releaseCache {
        cacheOwned := false;
      }
      if releaseConnection {
        connectionOwned := false;
      }
    }
  }

  lemma HitKeepsConsistent(db: Db, keyword: string, getFails: bool)
    requires Consistent(db)
    ensures Consistent(Policy.HitShortlink(db, keyword, getFails).after)
  {
    if Policy.HitShortlink(db, keyword, getFails).result == Counted {
      HitChangesOnlyHits(db, keyword, getFails);
    }
  }
}
