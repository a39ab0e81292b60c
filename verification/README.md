# linkshrink: the cache-and-store coordinator, in Dafny

This project models the storage layer of the linkshrink link shortener:
`AppState` in `src/database.rs` and the `Shortlink` record in `src/models.rs`.
`AppState` keeps an in-memory cache (keyword → `Shortlink`) in front of a Redis
store that holds each record as JSON under the key `"sl::" + keyword`. It has
five behaviours:

- `get_shortlink` looks in the cache first. On a miss it reads the store
  (read-through) and caches what it found. It never caches a miss.
- `hit_shortlink` adds one hit in the cache only (write-back).
- `store_shortlink` keeps the cached hit count, writes the store, then
  updates the cache (write-through).
- `get_all_shortlinks` lists `sl::*` and fetches every value with `MGET`.
  At each position, a cached record replaces the fetched one whole.
- The background flusher writes every cache entry to its namespaced key on
  each pass. It stops once the cache or the connection has no owner left.

Files:

- `wrappers.dfy` (`Wrappers`): `Option`.
- `models.dfy` (`Models`): the record and its JSON encoding and decoding,
  including the serde defaults.
- `namespace.dfy` (`Namespace`): the `"sl::"` key transform and its inverse.
- `policy.dfy` (`Policy`): the five behaviours as pure functions over
  `Db(cache, store)`, with the lemmas that state their properties.
- `database.dfy` (`Database`): class `AppState`. Its fields `cache` and
  `store` are updated in place by methods proved to follow the `Policy`
  functions. The flusher's pass is a loop over the cache entries in an
  unspecified order.
- `scenarios.dfy` (`Scenarios`): request sequences on a fresh `AppState`,
  checked by the verifier from the methods' contracts.

Failures of Redis commands (transport errors) are boolean parameters of the
operation that sends the command. A stored value that does not decode is part
of the store's state, and `Decode` decides it. In one flusher pass, a record
can fail to serialise (`filter_map`) or fail to send (result ignored). A
failed send is modelled as a `SET` the server did not apply, so both leave
that key as it was, and the keywords where either happens form the `dropped`
set. `AppState.store` stands for the Redis keyspace behind `connection`.
`cacheOwned` and `connectionOwned` say whether the flusher's `Weak` handles
would still upgrade.

Where the intended design and the code differ, the model follows the code:

- `hit_shortlink` on a keyword with no record anywhere panics through
  `expect`; it does not return a `NotFound` error. This is the outcome
  `CannotFindShortlink`.
- A lookup miss creates no placeholder record.
- `get_all_shortlinks` fails as a whole when any fetched value does not
  decode, even if that keyword is cached.

## Model

| member | source | states |
|---|---|---|
| `Models.Decode` | src/models.rs:3-14 | a decoded record needs `keyword`, `url` and `owner`, and takes them from the object; a missing `hits` gives 0, a missing `private` gives false, a missing `description` gives "" |
| `Models.Encode` | src/models.rs:3 | every one of the six fields is written, and decoding the encoding gives back the same record |
| `Models.DefaultShortlink` | src/models.rs:3 | the derived `Default` is exactly what decoding an object with only empty `keyword`/`url`/`owner` gives |
| `Models.DefaultsFillOptionalFields` | src/models.rs:8-13 | an object holding only the three required strings decodes with hits 0, not private and an empty description |
| `Models.MissingOptionalFieldsDefault` | src/models.rs:8-13 | removing `hits`, `private` or `description` from a decodable object resets only that field to its default |
| `Models.RequiredFieldsMissing` | src/models.rs:5-7 | an object missing `keyword`, `url` or `owner` does not decode |
| `Models.WrongKindFails` | src/models.rs:5-13 | a field present with the wrong JSON kind (a non-string `keyword`/`url`/`owner`/`description`, a non-number or negative `hits`, a non-bool `private`) makes decoding fail |
| `Models.UnknownFieldsIgnored` | src/models.rs:3 | extra fields outside the record's six names do not change the decoding |
| `Namespace.NamespacedKey` | src/database.rs:208 | the key is in the `sl::` namespace, and stripping the prefix gives the keyword back |
| `Namespace.PrefixStripped` | src/database.rs:108 | for a key in the namespace, stripping the first four characters and prefixing again gives the key back |
| `Namespace.NamespacedKeyInjective` | src/database.rs:136 | two keywords with the same store key are equal |
| `Policy.StoreGet` | src/database.rs:135-138 | `GET` returns `None` exactly when the key is absent, the decoded record when the value decodes, and `FailedToQueryRedis` when it does not |
| `Policy.SetKeyInRedis` | src/database.rs:203-209 | the `SET` command's key strips to the record's keyword, and its value decodes to the record |
| `Policy.GetShortlink` | src/database.rs:129-146 | a cached keyword returns the cached record with no state change; on a miss: a failed GET gives `FailedToQueryRedis`, an absent key gives `None`, and neither changes the cache; a found record is returned and cached under the keyword; the store never changes |
| `Policy.GetShortlinkKeepsConsistent` | src/database.rs:135-143 | read-through keeps every cache entry under its own keyword, because a record found at `sl::k` has keyword `k` |
| `Policy.SecondLookupServedFromCache` | src/database.rs:130-133 | after a lookup found a record, the next lookup returns it from the cache even when the store fails |
| `Policy.MissIsNotCached` | src/database.rs:140-145 | after a lookup returned `None`, a record written to the store later is found by the next lookup |
| `Policy.HitShortlink` | src/database.rs:148-156 | the lookup's error propagates unchanged; a missing record is the `expect` panic; otherwise the cache holds the resolved record with hits + 1; the store never changes, and the cache is unchanged unless the hit counted |
| `Policy.HitChangesOnlyHits` | src/database.rs:148-155 | a counted hit raises that record's hits by one, keeps its other fields, leaves every other cache key and the whole store unchanged, and keeps the state consistent |
| `Policy.Upserted` | src/database.rs:160-163 | the written record equals the caller's except for hits, which come from the cached entry when one exists |
| `Policy.StoreShortlink` | src/database.rs:159-174 | a failed write returns `FailedToQueryRedis` and changes nothing; on success both the cache at the keyword and the store at `sl::keyword` hold the upserted record, and no other key in either map changes |
| `Policy.StoreShortlinkKeepsConsistent` | src/database.rs:165-172 | an upsert keeps every cache entry and every decodable store record under its own key |
| `Policy.ReadAfterWrite` | src/database.rs:165-172 | after a successful upsert, a lookup returns the upserted record from the cache, whether the store fails or not |
| `Policy.UpsertKeepsCachedHits` | src/database.rs:160-163 | with 5 cached hits, an upsert carrying 0 hits leaves 5 in both the cache and the store |
| `Policy.MGet` | src/database.rs:101-106 | `MGET` fetches one raw value per listed key, in order |
| `Policy.DecodeAll` | src/database.rs:111-115 | reading the `MGET` reply succeeds exactly when every value decodes, and then yields the decoded records in order |
| `Policy.Merge` | src/database.rs:116-122 | the zip has one entry per position, up to the shorter list; entry i is the whole cached record for the stripped key when cached, else the fetched record |
| `Policy.MergePrefersCache` | src/database.rs:116-122 | store {a: 1 hit, b: 1 hit} and cache {a: 9 hits} merge to [a with 9 hits, b with 1 hit] |
| `Policy.MergeAgreesWithLookup` | src/database.rs:108-122 | each merged entry is what a lookup of that keyword returns when the store works |
| `Policy.FlushSweep` | src/database.rs:64-72 | a flush pass never changes the cache |
| `Policy.SweepCommand` | src/database.rs:64-66 | for a cache entry kept under its own keyword, the flusher's `SET` goes to that keyword's namespaced key |
| `Policy.WrittenStep` | src/database.rs:69-72 | sending one more entry's `SET` extends the pass's writes by exactly that entry, whatever the order |
| `Policy.SweepWritesEveryEntry` | src/database.rs:62-73 | after a pass, every entry not dropped is in the store at `sl::k` and decodes to the cached record |
| `Policy.SweepKeepsOtherKeys` | src/database.rs:64-72 | a pass neither creates nor changes any store key that no surviving entry maps to |
| `Policy.SweepKeepsConsistent` | src/database.rs:64-72 | a pass keeps every decodable store record under its own key |
| `Policy.SweepIdempotent` | src/database.rs:62-73 | a second pass with nothing dropped writes nothing new |
| `Policy.HitReachesStoreAfterSweep` | src/database.rs:152-154 | a hit counted in the cache only is in the store, with hits + 1, after the next complete pass |
| `Database.AppState.constructor` | src/database.rs:51-58 | a new state has an empty cache, the given store, both handles owned and the flusher running |
| `Database.AppState.New` | src/database.rs:38-85 | a connection failure gives `UnableToConnect`; otherwise a fresh, consistent state with an empty cache |
| `Database.AppState.GetShortlink` | src/database.rs:129-146 | the result and the new cache are those of `Policy.GetShortlink`, and the state stays consistent |
| `Database.AppState.HitShortlink` | src/database.rs:148-156 | the outcome and the new cache are those of `Policy.HitShortlink`, and the state stays consistent |
| `Database.AppState.StoreShortlink` | src/database.rs:159-174 | the result and the new cache and store are those of `Policy.StoreShortlink`, and the state stays consistent |
| `Database.AppState.GetAllShortlinks` | src/database.rs:89-125 | a failed `KEYS` gives `FailedToQueryRedis`; no keys gives an empty list; it fails exactly when a command fails or a fetched value does not decode; otherwise one entry per key, in order, taken whole from the cache when cached and otherwise decoded from the store, equal to what a lookup of that keyword returns; nothing changes |
| `Database.AppState.FlushTick` | src/database.rs:59-81 | when both handles upgrade, the pass performs `Policy.FlushSweep` and the loop goes on; otherwise the loop ends, marks the flusher stopped and writes nothing |
| `Database.AppState.SendEntries` | src/database.rs:64-72 | the loop over cache entries, in any order, leaves the store as the old store overwritten by the pass's writes |
| `Database.AppState.Release` | src/database.rs:55-62 | dropping the last strong owner of the cache or the connection makes the matching `Weak::upgrade` fail from then on |
| `Database.HitKeepsConsistent` | src/database.rs:148-155 | a hit keeps every cache entry under its own keyword |

## Left out

- Concurrency is left out: the lock-free map, the `Arc`/`Weak` handles,
  `tokio::spawn` and the 5-second sleep between passes. Operations run one at
  a time. The flusher is one `FlushTick` per pass, called between operations.
  So the lost update between concurrent `hit_shortlink` calls on one keyword
  is not modelled.
- JSON text, the RESP protocol and the `KEYS`/`MGET` wire format are
  abstracted. A stored value is a JSON object: a map from field name to
  value. Duplicate fields and the array form of a struct are not modelled.
- `Policy.IsKeysReply`: the reply to `KEYS sl::*` is a parameter. It must
  list every namespaced store key exactly once, in any order. So what `MGET`
  returns for an absent key never arises.
- `Models.Decode`: `hits` accepts any non-negative number. The `usize`
  upper bound is not modelled.
- `Policy.HitShortlink`: `hits + 1` is unbounded. The `usize` overflow at
  2^64 − 1 (a panic or a wrap, depending on the build profile) is not
  modelled.
- `Database.AppState.constructor`: the initial store must keep every
  decodable record in the `sl::` namespace under its own keyword. This
  coordinator's own writes always do. Data written there by other programs
  is not modelled.
- `Database.AppState.New`: Handlebars template registration (an `expect`),
  `get_engine` and the template engine field are left out. `paired_connect`
  becomes the `connectFails` parameter.
- `DatabaseError::FailedToEvictCache` is declared but never produced.
  `IntoResponse` (HTTP 500) is left out.
- `Policy.SetKeyInRedis`: serialising this record cannot fail, so the
  serialisation error path of `set_key_in_redis` is merged into the
  `writeFails` parameter of `store_shortlink` and into `dropped` for the
  flusher.
- `Policy.StoreShortlink`, `Policy.FlushSweep`: a failed `SET` is modelled
  as not applied. A write that the server applied before its reply was lost
  is not modelled; the source only sees that `send` returned an error.
- Logging and tracing (`info!`, `debug!`, `error!`, `#[instrument]`) are
  left out.
- `src/main.rs`, `src/main_old.rs` and `src/error.rs` are not part of this
  model. They are the HTTP route handlers and an error wrapper.
