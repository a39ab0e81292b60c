/**
 * The cache-and-store coordination policy of `AppState`, as functions over
 * the pair (cache, store). `Database.AppState` updates the same pair in place
 * and is proved to follow these functions.
 *
 * The store stands for the Redis keyspace: key to stored JSON object. A
 * transport failure of a store command is not a property of the store, so it
 * is a boolean parameter of the operation that issues the command; a value
 * that does not decode is a property of the store and is decided by `Decode`.
 */
module Policy {
  import opened Wrappers
  import opened Models
  import opened Namespace

  /** `DatabaseError`. */
  datatype DatabaseError = UnableToConnect | FailedToQueryRedis | FailedToEvictCache

  /** `Result<T, DatabaseError>`. */
  datatype Result<+T> = Ok(value: T) | Err(error: DatabaseError)

  /** The coordinator's state: the in-memory cache (keyword to record) and the store. */
  datatype Db = Db(cache: map<string, Shortlink>, store: map<string, JsonObject>)

  /** What an operation returns, with the state it leaves behind. */
  datatype Reply<+T> = Reply(result: T, after: Db)

  /** Every cache entry sits under its own keyword. */
  predicate CacheKeyed(cache: map<string, Shortlink>)
  {
    forall k :: k in cache ==> cache[k].keyword == k
  }

  /** Every decodable record in the namespace sits under its own namespaced key. */
  predicate StoreKeyed(store: map<string, JsonObject>)
  {
    forall sk :: sk in store && HasPrefix(sk) && Decode(store[sk]).Some? ==>
      Decode(store[sk]).value.keyword == StripPrefix(sk)
  }

  /** The state invariant every operation keeps. */
  predicate Consistent(db: Db)
  {
    CacheKeyed(db.cache) && StoreKeyed(db.store)
  }

  // ---------------------------------------------------------------------------
  // Store commands

  /** `GET key` read as `Option<Shortlink>`: an absent key is `None`, an undecodable value an error. */
  function StoreGet(store: map<string, JsonObject>, key: string): (r: Result<Option<Shortlink>>)
    ensures r == Ok(None) <==> key !in store
    ensures r.Err? ==> r.error == FailedToQueryRedis && key in store && Decode(store[key]).None?
    ensures r.Ok? && r.value.Some? ==> key in store && Decode(store[key]) == r.value
  {
    if key !in store then Ok(None)
    else match Decode(store[key])
      case Some(s) => Ok(Some(s))
      case None => Err(FailedToQueryRedis)
  }

  /** A `SET key value` command. */
  datatype SetCommand = Set(key: string, value: JsonObject)

  /** `Shortlink::set_key_in_redis`: the record's namespaced key and its encoding. */
  function SetKeyInRedis(s: Shortlink): (c: SetCommand)
    ensures HasPrefix(c.key) && StripPrefix(c.key) == s.keyword
    ensures Decode(c.value) == Some(s)
  {
    Set(NamespacedKey(s.keyword), Encode(s))
  }

  /** The effect of a successful `SET` on the store. */
  function Apply(store: map<string, JsonObject>, c: SetCommand): map<string, JsonObject>
  {
    store[c.key := c.value]
  }

  // ---------------------------------------------------------------------------
  // get_shortlink: cache first, read-through on a miss, no negative caching

  function GetShortlink(db: Db, keyword: string, getFails: bool): (r: Reply<Result<Option<Shortlink>>>)
    ensures r.after.store == db.store
    ensures keyword in db.cache ==> r == Reply(Ok(Some(db.cache[keyword])), db)
    ensures keyword !in db.cache && getFails ==> r == Reply(Err(FailedToQueryRedis), db)
    ensures keyword !in db.cache && !getFails ==> r.result == StoreGet(db.store, NamespacedKey(keyword))
    ensures r.result.Err? ==> r.result.error == FailedToQueryRedis && r.after == db
    ensures r.result == Ok(None) ==> r.after == db
    ensures r.result.Ok? && r.result.value.Some? ==>
              r.after.cache == db.cache[keyword := r.result.value.value]
  {
    if keyword in db.cache then Reply(Ok(Some(db.cache[keyword])), db)
    else if getFails then Reply(Err(FailedToQueryRedis), db)
    else
      var entry := StoreGet(db.store, NamespacedKey(keyword));
      match entry
      case Ok(Some(s)) => Reply(entry, db.(cache := db.cache[keyword := s]))
      case _ => Reply(entry, db)
  }

  lemma GetShortlinkKeepsConsistent(db: Db, keyword: string, getFails: bool)
    requires Consistent(db)
    ensures Consistent(GetShortlink(db, keyword, getFails).after)
    ensures GetShortlink(db, keyword, getFails).result.Ok? && GetShortlink(db, keyword, getFails).result.value.Some? ==>
              GetShortlink(db, keyword, getFails).result.value.value.keyword == keyword
  {
    var r := GetShortlink(db, keyword, getFails);
    if keyword !in db.cache && r.result.Ok? && r.result.value.Some? {
      var key := NamespacedKey(keyword);
      assert key in db.store && HasPrefix(key) && Decode(db.store[key]).Some?;
      assert r.result.value.value.keyword == keyword;
    }
  }

  /** Once a lookup has found a record, the next lookup returns it from the cache whatever the store does. */
  lemma SecondLookupServedFromCache(db: Db, keyword: string, getFails: bool, laterFails: bool)
    requires GetShortlink(db, keyword, getFails).result.Ok?
    requires GetShortlink(db, keyword, getFails).result.value.Some?
    ensures var first := GetShortlink(db, keyword, getFails);
            GetShortlink(first.after, keyword, laterFails) == Reply(first.result, first.after)
  {
  }

  /** A miss is not remembered: a record written to the store afterwards is found by the next lookup. */
  lemma MissIsNotCached(db: Db, keyword: string, getFails: bool, s: Shortlink)
    requires GetShortlink(db, keyword, getFails).result == Ok(None)
    ensures var after := GetShortlink(db, keyword, getFails).after;
            var written := after.(store := Apply(after.store, SetKeyInRedis(s.(keyword := keyword))));
            GetShortlink(written, keyword, false).result == Ok(Some(s.(keyword := keyword)))
  {
  }

  // ---------------------------------------------------------------------------
  // hit_shortlink: write-back increment

  /** `Ok(())`, a propagated error, or the panic of `.expect("Cannot find shortlink")`. */
  datatype HitOutcome = Counted | Failed(error: DatabaseError) | CannotFindShortlink

  function HitShortlink(db: Db, keyword: string, getFails: bool): (r: Reply<HitOutcome>)
    ensures r.after.store == db.store
    ensures r.result.Failed? <==> GetShortlink(db, keyword, getFails).result.Err?
    ensures r.result.Failed? ==> r.result.error == GetShortlink(db, keyword, getFails).result.error
    ensures r.result == CannotFindShortlink <==> GetShortlink(db, keyword, getFails).result == Ok(None)
    ensures r.result != Counted ==> r.after == db
    ensures r.result == Counted ==>
              var prior := GetShortlink(db, keyword, getFails).result.value.value;
              r.after.cache == db.cache[keyword := prior.(hits := prior.hits + 1)]
  {
    var lookup := GetShortlink(db, keyword, getFails);
    match lookup.result
    case Err(e) => Reply(Failed(e), lookup.after)
    case Ok(None) => Reply(CannotFindShortlink, lookup.after)
    case Ok(Some(s)) => Reply(Counted, lookup.after.(cache := lookup.after.cache[keyword := s.(hits := s.hits + 1)]))
  }

  /** A counted hit raises the resolved record's hits by one and changes nothing else anywhere. */
  lemma HitChangesOnlyHits(db: Db, keyword: string, getFails: bool)
    requires Consistent(db)
    requires HitShortlink(db, keyword, getFails).result == Counted
    ensures var after := HitShortlink(db, keyword, getFails).after;
            var prior := GetShortlink(db, keyword, getFails).result.value.value;
            && keyword in after.cache
            && after.cache[keyword].hits == prior.hits + 1
            && after.cache[keyword].(hits := prior.hits) == prior
            && after.cache[keyword].keyword == keyword
            && after.cache - {keyword} == db.cache - {keyword}
            && after.store == db.store
            && Consistent(after)
  {
    GetShortlinkKeepsConsistent(db, keyword, getFails);
  }

  // ---------------------------------------------------------------------------
  // store_shortlink: write-through upsert keeping the cached hit count

  /** The record an upsert writes: the caller's record, except that a cached entry's hits win. */
  function Upserted(cache: map<string, Shortlink>, s: Shortlink): (t: Shortlink)
    ensures t.(hits := s.hits) == s
    ensures s.keyword in cache ==> t.hits == cache[s.keyword].hits
    ensures s.keyword !in cache ==> t == s
  {
    if s.keyword in cache then s.(hits := cache[s.keyword].hits) else s
  }

  function StoreShortlink(db: Db, s: Shortlink, writeFails: bool): (r: Reply<Result<()>>)
    ensures r.result.Err? <==> writeFails
    ensures r.result.Err? ==> r.result.error == FailedToQueryRedis && r.after == db
    ensures r.result.Ok? ==>
              && r.after.cache - {s.keyword} == db.cache - {s.keyword}
              && r.after.store - {NamespacedKey(s.keyword)} == db.store - {NamespacedKey(s.keyword)}
              && s.keyword in r.after.cache && r.after.cache[s.keyword] == Upserted(db.cache, s)
              && StoreGet(r.after.store, NamespacedKey(s.keyword)) == Ok(Some(Upserted(db.cache, s)))
  {
    var t := Upserted(db.cache, s);
    if writeFails then Reply(Err(FailedToQueryRedis), db)
    else Reply(Ok(()), Db(db.cache[t.keyword := t], Apply(db.store, SetKeyInRedis(t))))
  }

  lemma StoreShortlinkKeepsConsistent(db: Db, s: Shortlink, writeFails: bool)
    requires Consistent(db)
    ensures Consistent(StoreShortlink(db, s, writeFails).after)
  {
    var after := StoreShortlink(db, s, writeFails).after;
    if !writeFails {
      var key := NamespacedKey(s.keyword);
      forall sk | sk in after.store && HasPrefix(sk) && Decode(after.store[sk]).Some?
        ensures Decode(after.store[sk]).value.keyword == StripPrefix(sk)
      {
        if sk != key {
          assert sk in db.store - {key};
        }
      }
    }
  }

  /** Read-after-write: after a successful upsert the lookup is served from the cache, store failing or not. */
  lemma ReadAfterWrite(db: Db, s: Shortlink, getFails: bool)
    ensures var after := StoreShortlink(db, s, false).after;
            GetShortlink(after, s.keyword, getFails) == Reply(Ok(Some(Upserted(db.cache, s))), after)
  {
  }

  /** Hits accumulated in the cache survive an upsert that carries a smaller count. */
  lemma UpsertKeepsCachedHits()
    ensures var cached := Shortlink("home", "https://a.example", "ann", 5, false, "");
            var incoming := Shortlink("home", "https://b.example", "ann", 0, true, "new");
            var db := Db(map["home" := cached], map[]);
            var after := StoreShortlink(db, incoming, false).after;
            after.cache["home"].hits == 5
            && StoreGet(after.store, "sl::home") == Ok(Some(incoming.(hits := 5)))
  {
    var incoming := Shortlink("home", "https://b.example", "ann", 0, true, "new");
    assert NamespacedKey("home") == "sl::home";
    assert Upserted(map["home" := Shortlink("home", "https://a.example", "ann", 5, false, "")], incoming)
           == incoming.(hits := 5);
  }

  // ---------------------------------------------------------------------------
  // get_all_shortlinks: KEYS, MGET, and a per-position merge in which the cache wins

  /** A reply to `KEYS sl::*`: each namespaced store key exactly once, in some order. */
  predicate IsKeysReply(keys: seq<string>, store: map<string, JsonObject>)
  {
    && (forall i :: 0 <= i < |keys| ==> keys[i] in store && HasPrefix(keys[i]))
    && (forall sk :: sk in store && HasPrefix(sk) ==> sk in keys)
    && (forall i, j :: 0 <= i < j < |keys| ==> keys[i] != keys[j])
  }

  /** The raw values `MGET` fetches for the listed keys, in order. */
  function MGet(store: map<string, JsonObject>, keys: seq<string>): (vs: seq<JsonObject>)
    requires forall i :: 0 <= i < |keys| ==> keys[i] in store
    ensures |vs| == |keys| && forall i :: 0 <= i < |keys| ==> vs[i] == store[keys[i]]
  {
    seq(|keys|, i requires 0 <= i < |keys| => store[keys[i]])
  }

  /** Reading the `MGET` reply as `Vec<Shortlink>`: one undecodable element fails the whole reply. */
  function DecodeAll(values: seq<JsonObject>): (r: Option<seq<Shortlink>>)
    ensures r.Some? ==> |r.value| == |values|
    ensures r.Some? ==> forall i :: 0 <= i < |values| ==> Decode(values[i]) == Some(r.value[i])
    ensures r.None? <==> exists i :: 0 <= i < |values| && Decode(values[i]).None?
  {
    if values == [] then Some([])
    else match (Decode(values[0]), DecodeAll(values[1..]))
      case (Some(s), Some(rest)) => Some([s] + rest)
      case (None, _) => None
      case (_, None) =>
        assert forall i :: 0 <= i < |values| - 1 ==> values[1..][i] == values[i + 1];
        None
  }

  /** The zip of the fetched records with the cache lookups: position by position, a cached record wins whole. */
  function Merge(keys: seq<string>, fetched: seq<Shortlink>, cache: map<string, Shortlink>): (r: seq<Shortlink>)
    requires forall i :: 0 <= i < |keys| ==> |keys[i]| >= |Prefix|
    ensures |r| == if |keys| < |fetched| then |keys| else |fetched|
    ensures forall i :: 0 <= i < |r| ==>
              r[i] == if StripPrefix(keys[i]) in cache then cache[StripPrefix(keys[i])] else fetched[i]
  {
    if keys == [] || fetched == [] then []
    else
      var keyword := StripPrefix(keys[0]);
      var first := if keyword in cache then cache[keyword] else fetched[0];
      [first] + Merge(keys[1..], fetched[1..], cache)
  }

  /** With Store holding a (hits 1) and b (hits 1) and the cache holding a (hits 9), the merge gives 9 and 1. */
  lemma MergePrefersCache()
    ensures var a1 := Shortlink("a", "u", "o", 1, false, "");
            var b1 := Shortlink("b", "u", "o", 1, false, "");
            var a9 := a1.(hits := 9);
            Merge(["sl::a", "sl::b"], [a1, b1], map["a" := a9]) == [a9, b1]
  {
    assert StripPrefix("sl::a") == "a";
    assert StripPrefix("sl::b") == "b";
  }

  /** Entry by entry, the merged list is what a lookup of the listed keyword returns with a working store. */
  lemma MergeAgreesWithLookup(db: Db, keys: seq<string>, fetched: seq<Shortlink>, i: nat)
    requires IsKeysReply(keys, db.store)
    requires DecodeAll(MGet(db.store, keys)) == Some(fetched)
    requires i < |keys|
    ensures |Merge(keys, fetched, db.cache)| == |keys|
    ensures GetShortlink(db, StripPrefix(keys[i]), false).result == Ok(Some(Merge(keys, fetched, db.cache)[i]))
  {
    PrefixStripped(keys[i]);
    assert MGet(db.store, keys)[i] == db.store[keys[i]];
  }

  // ---------------------------------------------------------------------------
  // The background flush: one sweep writes every cache entry to its namespaced key

  /**
   * The writes of one sweep over the cache entries `live`. The source sends
   * `SetKeyInRedis(cache[k])`; on a keyed cache that is the `SET` of
   * `NamespacedKey(k)` (see `SweepCommand`), which is what is written here.
   */
  function Written(cache: map<string, Shortlink>, live: set<string>): (w: map<string, JsonObject>)
    requires CacheKeyed(cache) && live <= cache.Keys
  {
    map k | k in live :: NamespacedKey(k) := Encode(cache[k])
  }

  /** On a keyed cache, the command the flusher sends for entry `k` targets `k`'s namespaced key. */
  lemma SweepCommand(cache: map<string, Shortlink>, k: string)
    requires CacheKeyed(cache) && k in cache
    ensures SetKeyInRedis(cache[k]) == Set(NamespacedKey(k), Encode(cache[k]))
  {
  }

  /** Sending one more entry's command extends the sweep's writes by that entry. */
  lemma WrittenStep(base: map<string, JsonObject>, cache: map<string, Shortlink>, done: set<string>, k: string)
    requires CacheKeyed(cache) && done <= cache.Keys && k in cache && k !in done
    ensures Apply(base + Written(cache, done), SetKeyInRedis(cache[k])) == base + Written(cache, done + {k})
  {
    SweepCommand(cache, k);
    var before, after := Written(cache, done), Written(cache, done + {k});
    var key, value := NamespacedKey(k), Encode(cache[k]);
    assert after.Keys == before.Keys + {key};
    forall x | x in after && x != key ensures x in before && after[x] == before[x] {
      var j :| j in done + {k} && NamespacedKey(j) == x;
    }
    UpdateExtends(before, after, key, value);
    UnionUpdate(base, before, key, value);
  }

  lemma UpdateExtends<K, V>(m: map<K, V>, m': map<K, V>, key: K, value: V)
    requires m'.Keys == m.Keys + {key} && m'[key] == value
    requires forall x | x in m' && x != key :: x in m && m'[x] == m[x]
    ensures m' == m[key := value]
  {
  }

  lemma UnionUpdate(base: map<string, JsonObject>, m: map<string, JsonObject>, key: string, value: JsonObject)
    ensures Apply(base + m, Set(key, value)) == base + m[key := value]
  {
  }

  /** One sweep in which the entries in `dropped` fail to serialize or to send; the cache is only read. */
  function FlushSweep(db: Db, dropped: set<string>): (r: Db)
    requires CacheKeyed(db.cache)
    ensures r.cache == db.cache
  {
    db.(store := db.store + Written(db.cache, db.cache.Keys - dropped))
  }

  /** Every entry that was not dropped is now in the store under its namespaced key, and decodes to the cached record. */
  lemma SweepWritesEveryEntry(db: Db, dropped: set<string>, k: string)
    requires CacheKeyed(db.cache)
    requires k in db.cache && k !in dropped
    ensures StoreGet(FlushSweep(db, dropped).store, NamespacedKey(k)) == Ok(Some(db.cache[k]))
  {
    var w := Written(db.cache, db.cache.Keys - dropped);
    assert NamespacedKey(k) in w;
  }

  /** A store key that no surviving cache entry maps to is neither created nor changed by a pass. */
  lemma SweepKeepsOtherKeys(db: Db, dropped: set<string>, sk: string)
    requires CacheKeyed(db.cache)
    requires !HasPrefix(sk) || StripPrefix(sk) !in db.cache || StripPrefix(sk) in dropped
    ensures sk in FlushSweep(db, dropped).store <==> sk in db.store
    ensures sk in db.store ==> FlushSweep(db, dropped).store[sk] == db.store[sk]
  {
    var live := db.cache.Keys - dropped;
    forall k | k in live
      ensures NamespacedKey(k) != sk
    {
    }
    assert sk !in Written(db.cache, live);
  }

  lemma SweepKeepsConsistent(db: Db, dropped: set<string>)
    requires Consistent(db)
    ensures Consistent(FlushSweep(db, dropped))
  {
    var w := Written(db.cache, db.cache.Keys - dropped);
    var after := FlushSweep(db, dropped).store;
    forall sk | sk in after && HasPrefix(sk) && Decode(after[sk]).Some?
      ensures Decode(after[sk]).value.keyword == StripPrefix(sk)
    {
      if sk in w {
        var k :| k in db.cache.Keys - dropped && NamespacedKey(k) == sk;
      }
    }
  }

  /** Repeating a sweep with nothing dropped writes nothing new. */
  lemma SweepIdempotent(db: Db)
    requires CacheKeyed(db.cache)
    ensures FlushSweep(FlushSweep(db, {}), {}) == FlushSweep(db, {})
  {
    var w := Written(db.cache, db.cache.Keys - {});
    var once := db.store + w;
    assert FlushSweep(db, {}) == db.(store := once);
    assert FlushSweep(db.(store := once), {}) == db.(store := once + w);
    UnionAbsorbs(once, w);
  }

  lemma UnionAbsorbs<K, V>(m: map<K, V>, w: map<K, V>)
    requires forall k :: k in w ==> k in m && m[k] == w[k]
    ensures m + w == m
  {
  }

  /** Eventual flush: a counted hit is in the store after the next complete sweep. */
  lemma HitReachesStoreAfterSweep(db: Db, keyword: string, getFails: bool)
    requires Consistent(db)
    requires HitShortlink(db, keyword, getFails).result == Counted
    ensures var after := HitShortlink(db, keyword, getFails).after;
            var prior := GetShortlink(db, keyword, getFails).result.value.value;
            StoreGet(FlushSweep(after, {}).store, NamespacedKey(keyword)) == Ok(Some(prior.(hits := prior.hits + 1)))
  {
    HitChangesOnlyHits(db, keyword, getFails);
    var after := HitShortlink(db, keyword, getFails).after;
    SweepWritesEveryEntry(after, {}, keyword);
  }
}
