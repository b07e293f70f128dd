# sedis cache coherence core, in Dafny

sedis is a Java client library for Redis. It adds local caching on top of the store, and this project models that caching core. The pieces are:

- a two-level local store: raw JSON and decoded objects under composite keys;
- the invalidation coordinator: a per-key expiry-check table and two pub/sub channels that carry evictions between nodes;
- the pub/sub registry and its dispatch loop;
- three cache facades:
  - `LocalSedisCache`, with its read-through path and its collection views;
  - `LocalRedisCache`;
  - `MultiServiceRedisCache`;
- the request/result memo pool;
- the repository key codecs and the set view over a Redis set;
- the two configuration builders.

Every Java class whose fields are updated in place is a Dafny `class`, with `modifies` clauses on its methods and a `Valid()` invariant. Each state-changing method is specified by its whole new state. Where a read returns data, the method is tied to a pure function, and lemmas about that function state what the Java promises: idempotence, "nothing else changes", read-after-write, invalidation coverage and round trips.

The files and their modules:

| file | module | models |
|---|---|---|
| wrappers.dfy | Wrappers | `Option`, `Result` and the Java failures a call can end in |
| java_string.dfy | JavaString | `String.startsWith`, `indexOf`, `join`, `trim`, `hashCode`, `Long.intValue` |
| jvm.dfy | Jvm | objects with a class and supertypes, `instanceof`, `Optional.of`, the Gson codec as two functions |
| server.dfy | Server | the Redis server the client talks to: values, expiry and the publish log |
| cache_storage.dfy | LocalStore | `CacheStorage` |
| pubsub.dfy | PubSub | `SedisPubSubManager`, `SedisPubSubListener` |
| invalidation.dfy | Invalidation | `CacheInvalidationManager` |
| read_path.dfy | ReadPath | the read-through rule of `LocalSedisCache` and its view keys |
| local_sedis_cache.dfy | LocalCache | `LocalSedisCache` |
| peer_cache.dfy | PeerCache | the `get` rule and the channel routing shared by the two `RedisCache` facades |
| local_redis_cache.dfy | LocalRedis | `LocalRedisCache` |
| multi_service_cache.dfy | MultiService | `MultiServiceRedisCache` |
| requests.dfy | Requests | `SedisRequest`, `SedisValueRequest` |
| sedis_result.dfy | Results | `SedisResult` |
| cached_pool.dfy | ResultPool | `CachedSedisPool` |
| redis_repository.dfy | Repository | `RedisRepository` |
| sedis_repo.dfy | Repo | `SedisRepo` |
| sedis_set.dfy | SetEntry | `SedisSet` |
| gson_setup.dfy | GsonSetup | the Gson a builder chooses: supplied, or built from flags |
| local_redis_cache_creator.dfy | Creator | `LocalRedisCacheCreator` |
| local_sedis_cache_builder.dfy | Builder | `LocalSedisCacheBuilder` |

Modelling choices:

- **Gson** is a pair of functions, encode and decode. Decoding ends in one of three ways: it throws, it yields `null`, or it yields an object. No lemma assumes that decoding an encoding gives back the value.
- **The Redis store** is the `Server.Redis` class: a map from keys to string, hash, set, list and sorted-set entries, plus a set of keys with an expiry and a log of published messages. A variadic command called with no arguments fails, as Redis answers it with an arity error; this is why `SedisSet` guards against empty collections. Connection failures appear where the Java catches them, as a flag of the call.
- **Separate nodes.** The two `RedisCache` facades publish on `cache:invalidate` and `cache:invalidate:all`. The coordinator of `LocalSedisCache` uses `sedis.cache:invalidate` and `sedis.cache:clear`. A message sent by one node is handed to another node's routing method as an explicit step.
- **The listener thread** is two flags, present and alive, plus a log of the subscribe and unsubscribe requests forwarded to it.
- **Expiry checks.** A scheduled check is a queued task that fires by an explicit call naming the key, with the store's answer to "does the key still exist".
- **Java integers.** `int` fields are the `int32` newtype. `Long.intValue` keeps the low 32 bits, written out by `JavaString.IntValue`.
- **`LocalCacheStorage`** is not part of this model. `LocalSedisCache` stores into `CacheStorage`, which has the same operations.

## Model

| member | source | states |
|---|---|---|
| LocalStore.WithoutPrefix | sed-api/src/main/java/de/leycm/sedis/cache/CacheStorage.java:36-38 | exactly the entries whose key does not start with the prefix survive, with their values |
| LocalStore.BuildTypedKey | sed-api/src/main/java/de/leycm/sedis/cache/CacheStorage.java:45-47 | the typed key starts with `key:` and the rest is the class name |
| LocalStore.BuildCompositeKey | sed-api/src/main/java/de/leycm/sedis/cache/CacheStorage.java:49-51 | parts free of colons are split back out of the composite key |
| LocalStore.CacheStorage.constructor | sed-api/src/main/java/de/leycm/sedis/cache/CacheStorage.java:11-12 | both maps start empty |
| LocalStore.CompositeKeyPrefixes | sed-api/src/main/java/de/leycm/sedis/cache/CacheStorage.java:49-51 | a composite key of three or more parts lies under `k:` and under `k:t:` |
| LocalStore.CompositeKeyOfTwo | sed-api/src/main/java/de/leycm/sedis/cache/CacheStorage.java:49-51 | a two-part composite key is `k:x` |
| LocalStore.WithoutPrefixIdempotent | sed-api/src/main/java/de/leycm/sedis/cache/CacheStorage.java:36-38 | dropping a prefix twice equals dropping it once |
| LocalStore.TypedKeyCoveredByKey | sed-api/src/main/java/de/leycm/sedis/cache/CacheStorage.java:31-47 | every typed key built from `key` is removed by invalidating `key` |
| LocalStore.CacheStorage.PutRaw | sed-api/src/main/java/de/leycm/sedis/cache/CacheStorage.java:14-16 | the raw slot holds the JSON afterwards; every other raw entry and the typed map are unchanged |
| LocalStore.CacheStorage.GetRaw | sed-api/src/main/java/de/leycm/sedis/cache/CacheStorage.java:18-20 | the raw slot of the key, or empty |
| LocalStore.CacheStorage.PutTyped | sed-api/src/main/java/de/leycm/sedis/cache/CacheStorage.java:22-24 | the typed slot holds the value afterwards; every other typed entry and the raw map are unchanged |
| LocalStore.CacheStorage.GetTyped | sed-api/src/main/java/de/leycm/sedis/cache/CacheStorage.java:27-29 | the typed slot of the key, or empty |
| LocalStore.CacheStorage.InvalidateKey | sed-api/src/main/java/de/leycm/sedis/cache/CacheStorage.java:31-34 | removes the raw slot of `key` and exactly the typed keys starting with `key:`; raw `k:x` survives |
| LocalStore.CacheStorage.InvalidateByPrefix | sed-api/src/main/java/de/leycm/sedis/cache/CacheStorage.java:36-38 | removes exactly the typed keys starting with the prefix and leaves the raw map alone |
| LocalStore.CacheStorage.Clear | sed-api/src/main/java/de/leycm/sedis/cache/CacheStorage.java:40-43 | both maps are empty |
| LocalStore.InvalidateKeyTwice | sed-api/src/main/java/de/leycm/sedis/cache/CacheStorage.java:31-34 | invalidating a key twice leaves the store as invalidating it once |
| LocalStore.InvalidateByPrefixTwice | sed-api/src/main/java/de/leycm/sedis/cache/CacheStorage.java:36-38 | prefix invalidation twice leaves the store as applying it once |
| LocalStore.ExactAndPrefixInvalidationOfViews | sed-api/src/main/java/de/leycm/sedis/cache/CacheStorage.java:31-38 | invalidating `k` drops both views of `k`; invalidating `k:set:` drops only the set view |
| Invalidation.AtMostOneTaskPerKey | sed-api/src/main/java/de/leycm/sedis/cache/CacheInvalidationManager.java:62-73 | while the task table matches the scheduler queue, no key has two queued tasks |
| Invalidation.QueueIsTaskValues | sed-api/src/main/java/de/leycm/sedis/cache/CacheInvalidationManager.java:82-85 | while the table matches the queue, the queued tasks are exactly the table's tasks |
| Invalidation.Cancelled | sed-api/src/main/java/de/leycm/sedis/cache/CacheInvalidationManager.java:75-80 | cancelling a key's task keeps the table and queue in one-to-one correspondence and removes only that task |
| Invalidation.CacheInvalidationManager.constructor | sed-api/src/main/java/de/leycm/sedis/cache/CacheInvalidationManager.java:26-35 | starts with no tasks and no queued checks |
| Invalidation.CacheInvalidationManager.Initialize | sed-api/src/main/java/de/leycm/sedis/cache/CacheInvalidationManager.java:37-40 | registers the invalidation handler and then the clear handler on the two channels |
| Invalidation.CacheInvalidationManager.Shutdown | sed-api/src/main/java/de/leycm/sedis/cache/CacheInvalidationManager.java:42-47 | removes both handlers, then cancels every task, leaving table and queue empty |
| Invalidation.CacheInvalidationManager.InvalidateKey | sed-api/src/main/java/de/leycm/sedis/cache/CacheInvalidationManager.java:49-52 | equals storage `invalidateKey(k)` followed by cancelling `k`'s task; a second call finds nothing left to remove |
| Invalidation.CacheInvalidationManager.PublishInvalidation | sed-api/src/main/java/de/leycm/sedis/cache/CacheInvalidationManager.java:54-56 | publishes the Gson text of the key on `sedis.cache:invalidate`; the store is unchanged |
| Invalidation.CacheInvalidationManager.PublishClear | sed-api/src/main/java/de/leycm/sedis/cache/CacheInvalidationManager.java:58-60 | publishes the Gson text of the empty string on `sedis.cache:clear` |
| Invalidation.CacheInvalidationManager.ScheduleExpiration | sed-api/src/main/java/de/leycm/sedis/cache/CacheInvalidationManager.java:62-73 | cancels the key's previous task and registers exactly one new queued task for it; other keys' tasks are kept |
| Invalidation.CacheInvalidationManager.CancelExpirationTask | sed-api/src/main/java/de/leycm/sedis/cache/CacheInvalidationManager.java:75-80 | no-op for a key without a task; otherwise cancels and unmaps it, other keys intact |
| Invalidation.CacheInvalidationManager.CancelAllExpirationTasks | sed-api/src/main/java/de/leycm/sedis/cache/CacheInvalidationManager.java:82-85 | cancels every pending task and leaves the table empty |
| Invalidation.CacheInvalidationManager.Fire | sed-api/src/main/java/de/leycm/sedis/cache/CacheInvalidationManager.java:62-73 | a firing task runs its expiry action first (invalidate and announce when the store lost the key), then removes the key's record |
| Invalidation.CacheInvalidationManager.OnInvalidateMessage | sed-api/src/main/java/de/leycm/sedis/cache/CacheInvalidationManager.java:33 | the invalidation handler invalidates the payload as a key and cancels its task |
| Invalidation.CacheInvalidationManager.OnClearMessage | sed-api/src/main/java/de/leycm/sedis/cache/CacheInvalidationManager.java:34 | the clear handler empties both local maps and can change nothing else, so expiry tasks stay in place |
| PubSub.RemoveFirst | sed-api/src/main/java/de/leycm/sedis/pubsub/SedisPubSubManager.java:37-53 | `List.remove`: removes one occurrence when present, otherwise the list is unchanged |
| PubSub.FirstIndex | sed-api/src/main/java/de/leycm/sedis/pubsub/SedisPubSubManager.java:37-53 | the position of the first occurrence of a subscriber present in the list |
| PubSub.RemoveFirstAt | sed-api/src/main/java/de/leycm/sedis/pubsub/SedisPubSubManager.java:37-53 | removing the first occurrence at `i` cuts out exactly `s[i]` |
| PubSub.RemoveFirstSplits | sed-api/src/main/java/de/leycm/sedis/pubsub/SedisPubSubManager.java:37-53 | `List.remove` takes out the first occurrence and keeps the others in their order |
| PubSub.SedisPubSubManager.ThreadExits | sed-api/src/main/java/de/leycm/sedis/pubsub/SedisPubSubThread.java:37-51 | the run loop ends on its own: the thread is no longer alive; the registry, the thread handle and the log are unchanged |
| PubSub.AfterSubscribe | sed-api/src/main/java/de/leycm/sedis/pubsub/SedisPubSubManager.java:26-35 | the channel's list gains the subscriber at its end; other channels are unchanged |
| PubSub.AfterUnsubscribe | sed-api/src/main/java/de/leycm/sedis/pubsub/SedisPubSubManager.java:37-53 | one occurrence removed; a channel left empty is dropped; other channels unchanged |
| PubSub.RemoveFirstAppended | sed-api/src/main/java/de/leycm/sedis/pubsub/SedisPubSubManager.java:26-53 | removing a subscriber just appended, when it was new, restores the list |
| PubSub.SubscribeThenUnsubscribe | sed-api/src/main/java/de/leycm/sedis/pubsub/SedisPubSubManager.java:26-53 | unsubscribe after subscribe of a new subscriber gives back the registry |
| PubSub.SedisPubSubManager.constructor | sed-api/src/main/java/de/leycm/sedis/pubsub/SedisPubSubManager.java:21-24 | empty registry, no listener thread |
| PubSub.SedisPubSubManager.IsRunning | sed-api/src/main/java/de/leycm/sedis/pubsub/SedisPubSubManager.java:76-78 | running exactly when a thread exists and is alive |
| PubSub.SedisPubSubManager.Start | sed-api/src/main/java/de/leycm/sedis/pubsub/SedisPubSubManager.java:62-67 | starts a thread subscribed to the registry's channels unless one is running; the registry is unchanged |
| PubSub.SedisPubSubManager.Stop | sed-api/src/main/java/de/leycm/sedis/pubsub/SedisPubSubManager.java:69-74 | shuts the thread down and forgets it; a second call changes nothing |
| PubSub.SedisPubSubManager.Subscribe | sed-api/src/main/java/de/leycm/sedis/pubsub/SedisPubSubManager.java:26-35 | appends the subscriber; on an empty registry the listener is started unless it runs; on a non-empty registry the thread is left as it is and the channel is forwarded to the listener whenever a thread object exists, alive or not, and whether or not the channel already had subscribers |
| PubSub.SedisPubSubManager.Unsubscribe | sed-api/src/main/java/de/leycm/sedis/pubsub/SedisPubSubManager.java:37-53 | removes one occurrence; an emptied channel is dropped and unsubscribed, an emptied registry stops the listener |
| PubSub.SedisPubSubManager.Publish | sed-api/src/main/java/de/leycm/sedis/pubsub/SedisPubSubManager.java:55-60 | publishes the Gson encoding of the message on the channel |
| PubSub.SedisPubSubManager.GetSubscribers | sed-api/src/main/java/de/leycm/sedis/pubsub/SedisPubSubManager.java:15 | the channel's list in the registry, or none |
| PubSub.SedisPubSubListener.constructor | sed-api/src/main/java/de/leycm/sedis/pubsub/SedisPubSubListener.java:16-18 | the listener shares the manager's registry |
| PubSub.SedisPubSubListener.OnMessage | sed-api/src/main/java/de/leycm/sedis/pubsub/SedisPubSubListener.java:21-32 | delivers to each subscriber of the channel in list order, once per occurrence; a throwing subscriber does not stop the loop |
| PubSub.SedisPubSubListener.NotifySubscriber | sed-api/src/main/java/de/leycm/sedis/pubsub/SedisPubSubListener.java:35-40 | one delivery, reporting whether the subscriber threw |
| PubSub.LateSubscriberIsNotified | sed-api/src/main/java/de/leycm/sedis/pubsub/SedisPubSubListener.java:21-32 | a listener created before a subscription still delivers to it, as the last delivery |
| ReadPath.Invalidated | sed-api/src/main/java/de/leycm/sedis/cache/CacheStorage.java:31-34 | after `invalidateKey(key)` neither the raw slot nor any typed key under `key:` exists |
| ReadPath.PrefixInvalidated | sed-api/src/main/java/de/leycm/sedis/cache/CacheStorage.java:36-38 | after `invalidateByPrefix(p)` no typed key starts with `p`, raw untouched |
| ReadPath.ReadThrough | sed-api/src/main/java/de/leycm/sedis/cache/LocalSedisCache.java:503-526 | typed slot first, returned whatever it holds since the generic cast is unchecked; then raw slot decoded, then store; only the key's raw and typed slots can change; a miss changes nothing; a hit is left cached; a value not taken from the typed slot is a single object |
| ReadPath.SetViewReadAsValue | sed-api/src/main/java/de/leycm/sedis/cache/LocalSedisCache.java:97-100 | once `sMembers(key)` has cached its set view, `kGet(key + ":set")` of the same class returns that set, unchanged, as its value |
| ReadPath.LocalHitIgnoresStore | sed-api/src/main/java/de/leycm/sedis/cache/LocalSedisCache.java:503-526 | while either local tier holds the key, the store's answer does not matter |
| ReadPath.TypedHitFirst | sed-api/src/main/java/de/leycm/sedis/cache/LocalSedisCache.java:506-508 | a typed hit returns the cached entry, whatever its shape, and changes nothing |
| ReadPath.RawHitSecond | sed-api/src/main/java/de/leycm/sedis/cache/LocalSedisCache.java:510-515 | a raw hit is decoded into the typed slot; the raw tier is kept |
| ReadPath.StoreMissCachesNothing | sed-api/src/main/java/de/leycm/sedis/cache/LocalSedisCache.java:517-520 | with both tiers empty, a store miss returns empty and caches nothing |
| ReadPath.ReadThroughRepeats | sed-api/src/main/java/de/leycm/sedis/cache/LocalSedisCache.java:503-526 | a value just read is served again from the typed tier whatever the store says |
| ReadPath.ReadAfterInvalidationAsksStore | sed-api/src/main/java/de/leycm/sedis/cache/LocalSedisCache.java:503-526 | after `invalidateKey(key)` a read answers from the store alone |
| ReadPath.ReadAfterWriteHits | sed-api/src/main/java/de/leycm/sedis/cache/LocalSedisCache.java:103-113 | after the local half of `kSet`, a read of the value's class returns it without the store |
| ReadPath.DecodeSeq | sed-api/src/main/java/de/leycm/sedis/cache/LocalSedisCache.java:300-314 | decodes every element in order; one throw aborts the whole decode |
| ReadPath.DecodeSet | sed-api/src/main/java/de/leycm/sedis/cache/LocalSedisCache.java:242-256 | the decoded members are exactly the decodings of the store's members |
| ReadPath.FieldKey | sed-api/src/main/java/de/leycm/sedis/cache/LocalSedisCache.java:169-174 | a hash field's base key is `key:hkJson` |
| ReadPath.ViewKeyUnder | sed-api/src/main/java/de/leycm/sedis/cache/CacheStorage.java:49-51 | a composite view key lies under `k:` and `k:kind:` |
| ReadPath.SetViewCovered | sed-api/src/main/java/de/leycm/sedis/cache/LocalSedisCache.java:242-256 | every set view of `key` is under `key:set:` and under `key:` |
| ReadPath.RangeViewCovered | sed-api/src/main/java/de/leycm/sedis/cache/LocalSedisCache.java:300-331 | every `zRange` and `zRevRange` view is under `key:zset:` and `key:`; the same holds for `lRange` views under `key:list:` |
| ReadPath.IndexViewCovered | sed-api/src/main/java/de/leycm/sedis/cache/LocalSedisCache.java:456-470 | every index view is under `key:list:` and `key:` |
| ReadPath.SetViewRead | sed-api/src/main/java/de/leycm/sedis/cache/LocalSedisCache.java:242-256 | a cached set view is returned as is and any other cached entry gives ClassCast; a miss decodes the store's members and caches them under the view key; an error changes nothing |
| ReadPath.ListViewRead | sed-api/src/main/java/de/leycm/sedis/cache/LocalSedisCache.java:423-437 | a cached list view is returned as is and any other cached entry gives ClassCast; a miss decodes the range and caches it; an error changes nothing |
| ReadPath.IndexRead | sed-api/src/main/java/de/leycm/sedis/cache/LocalSedisCache.java:456-470 | a cached element, else the store's element decoded and cached; a missing element is not cached |
| ReadPath.ListViewRepeats | sed-api/src/main/java/de/leycm/sedis/cache/LocalSedisCache.java:423-437 | a range view just read is served again whatever the store says |
| ReadPath.SetViewRepeats | sed-api/src/main/java/de/leycm/sedis/cache/LocalSedisCache.java:242-256 | a set view just read is served again whatever the store says |
| ReadPath.ListViewAfterInvalidation | sed-api/src/main/java/de/leycm/sedis/cache/LocalSedisCache.java:378-386 | after its covering prefix is invalidated, a range view is rebuilt from the store |
| ReadPath.SetViewAfterInvalidation | sed-api/src/main/java/de/leycm/sedis/cache/LocalSedisCache.java:260-268 | after its covering prefix is invalidated, a set view is rebuilt from the store |
| LocalCache.Encoded | sed-api/src/main/java/de/leycm/sedis/cache/LocalSedisCache.java:224-231 | one JSON text per value, in order |
| LocalCache.WithoutKeys | sed-api/src/main/java/de/leycm/sedis/cache/LocalSedisCache.java:127-135 | exactly the entries under none of the keys' `k:` prefixes survive |
| LocalCache.Announcements | sed-api/src/main/java/de/leycm/sedis/cache/LocalSedisCache.java:127-135 | one invalidation message per deleted key, in order, carrying the Gson text of the key |
| LocalCache.FieldKeys | sed-api/src/main/java/de/leycm/sedis/cache/LocalSedisCache.java:193-205 | one base key `key:hkJson` per field, in order |
| LocalCache.PoppedValue | sed-api/src/main/java/de/leycm/sedis/cache/LocalSedisCache.java:401-409 | a popped text that does not decode throws; otherwise `Optional.ofNullable` of the decoding |
| LocalCache.LocalSedisCache.constructor | sed-api/src/main/java/de/leycm/sedis/cache/LocalSedisCache.java:40-52 | new storage, registry and coordinator; empty tiers, no tasks, no subscribers |
| LocalCache.LocalSedisCache.OnInstall | sed-api/src/main/java/de/leycm/sedis/cache/LocalSedisCache.java:55-58 | both handlers subscribed and the listener running |
| LocalCache.LocalSedisCache.OnUninstall | sed-api/src/main/java/de/leycm/sedis/cache/LocalSedisCache.java:61-76 | handlers removed, every check cancelled, listener stopped, tiers emptied |
| LocalCache.LocalSedisCache.Clear | sed-api/src/main/java/de/leycm/sedis/cache/LocalSedisCache.java:79-82 | empties both tiers and cancels every expiry check |
| LocalCache.LocalSedisCache.GetFromCacheOrRedis | sed-api/src/main/java/de/leycm/sedis/cache/LocalSedisCache.java:503-526 | returns and leaves behind exactly what the read-through function prescribes for the getter's store answer |
| LocalCache.LocalSedisCache.KGet | sed-api/src/main/java/de/leycm/sedis/cache/LocalSedisCache.java:97-100 | the read-through of GET key; a cached view in the typed slot is returned unchecked |
| LocalCache.LocalSedisCache.KSet | sed-api/src/main/java/de/leycm/sedis/cache/LocalSedisCache.java:103-112 | store written, both tiers filled, the key's expiry check cancelled |
| LocalCache.LocalSedisCache.KSetEx | sed-api/src/main/java/de/leycm/sedis/cache/LocalSedisCache.java:115-124 | a non-positive ttl is refused before anything local happens; otherwise as `kSet` plus a fresh expiry check under a new task id; the old task of the key is cancelled and every other task is kept |
| LocalCache.LocalSedisCache.KDelete | sed-api/src/main/java/de/leycm/sedis/cache/LocalSedisCache.java:127-135 | no key: refused, nothing changes; else the keys are deleted, invalidated and announced one by one in order |
| LocalCache.LocalSedisCache.KExists | sed-api/src/main/java/de/leycm/sedis/cache/LocalSedisCache.java:138-142 | EXISTS of the key in the store |
| LocalCache.LocalSedisCache.KExpire | sed-api/src/main/java/de/leycm/sedis/cache/LocalSedisCache.java:145-150 | EXPIRE, then a fresh expiry check for the key under a new task id whatever the store replied; the old task of the key is cancelled and every other task is kept |
| LocalCache.LocalSedisCache.ScheduleExpirationCheck | sed-api/src/main/java/de/leycm/sedis/cache/LocalSedisCache.java:487-496 | replaces the key's expiry check with one that invalidates and announces the key if the store lost it |
| LocalCache.LocalSedisCache.HSet | sed-api/src/main/java/de/leycm/sedis/cache/LocalSedisCache.java:160-166 | HSET of the encoded field and value; the local tiers are untouched, as written (see Findings) |
| LocalCache.LocalSedisCache.HSetInvalidating | sed-api/src/main/java/de/leycm/sedis/cache/LocalSedisCache.java:160-174 | the corrected `hSet`: HSET, then the field's base key `key:hkJson` invalidated when it succeeded; expiries and published messages are unchanged |
| LocalCache.LocalSedisCache.HGet | sed-api/src/main/java/de/leycm/sedis/cache/LocalSedisCache.java:169-174 | the read-through of HGET with base key `key:hkJson`; a cached view in the typed slot is returned unchecked |
| LocalCache.LocalSedisCache.HDelete | sed-api/src/main/java/de/leycm/sedis/cache/LocalSedisCache.java:193-205 | HDEL, then each field's base key invalidated, in order; a key the command empties loses its time to live, and other expiries are kept |
| LocalCache.LocalSedisCache.SAdd | sed-api/src/main/java/de/leycm/sedis/cache/LocalSedisCache.java:224-231 | SADD of the encoded values; the local tiers are untouched |
| LocalCache.LocalSedisCache.SIsMember | sed-api/src/main/java/de/leycm/sedis/cache/LocalSedisCache.java:234-239 | membership of the encoded value in the stored set |
| LocalCache.LocalSedisCache.SMembers | sed-api/src/main/java/de/leycm/sedis/cache/LocalSedisCache.java:242-256 | the set view read of `key:set:cls` |
| LocalCache.LocalSedisCache.SRemove | sed-api/src/main/java/de/leycm/sedis/cache/LocalSedisCache.java:260-268 | SREM, then the `key:set:` views dropped when it succeeded; a key the command empties loses its time to live, and other expiries are kept |
| LocalCache.LocalSedisCache.SCard | sed-api/src/main/java/de/leycm/sedis/cache/LocalSedisCache.java:271-275 | the stored set's cardinality |
| LocalCache.LocalSedisCache.ZAdd | sed-api/src/main/java/de/leycm/sedis/cache/LocalSedisCache.java:278-284 | ZADD, then the `key:zset:` views dropped when it succeeded |
| LocalCache.LocalSedisCache.ZRemove | sed-api/src/main/java/de/leycm/sedis/cache/LocalSedisCache.java:342-350 | ZREM, then the `key:zset:` views dropped when it succeeded; a key the command empties loses its time to live, and other expiries are kept |
| LocalCache.LocalSedisCache.CachedRange | sed-api/src/main/java/de/leycm/sedis/cache/LocalSedisCache.java:300-332 | a cached range view, else the store's range decoded and cached |
| LocalCache.LocalSedisCache.ZRange | sed-api/src/main/java/de/leycm/sedis/cache/LocalSedisCache.java:300-314 | the range view read of ZRANGE under `key:zset:range:start:end:cls` |
| LocalCache.LocalSedisCache.ZRevRange | sed-api/src/main/java/de/leycm/sedis/cache/LocalSedisCache.java:317-331 | the range view read of ZREVRANGE under `key:zset:revrange:start:end:cls` |
| LocalCache.LocalSedisCache.LPush | sed-api/src/main/java/de/leycm/sedis/cache/LocalSedisCache.java:378-386 | LPUSH, then the `key:list:` views dropped when it succeeded |
| LocalCache.LocalSedisCache.RPush | sed-api/src/main/java/de/leycm/sedis/cache/LocalSedisCache.java:390-398 | RPUSH, then the `key:list:` views dropped when it succeeded |
| LocalCache.LocalSedisCache.Pop | sed-api/src/main/java/de/leycm/sedis/cache/LocalSedisCache.java:401-421 | a popped element drops the list views and is decoded; an empty list changes nothing local; a list emptied by the pop loses its time to live |
| LocalCache.LocalSedisCache.LPop | sed-api/src/main/java/de/leycm/sedis/cache/LocalSedisCache.java:401-409 | LPOP as described for `Pop` |
| LocalCache.LocalSedisCache.RPop | sed-api/src/main/java/de/leycm/sedis/cache/LocalSedisCache.java:412-420 | RPOP as described for `Pop` |
| LocalCache.LocalSedisCache.LRange | sed-api/src/main/java/de/leycm/sedis/cache/LocalSedisCache.java:423-437 | the range view read of LRANGE under `key:list:range:start:end:cls` |
| LocalCache.LocalSedisCache.LSet | sed-api/src/main/java/de/leycm/sedis/cache/LocalSedisCache.java:447-453 | LSET, then the `key:list:` views dropped; a refused LSET changes nothing local |
| LocalCache.LocalSedisCache.LIndex | sed-api/src/main/java/de/leycm/sedis/cache/LocalSedisCache.java:456-470 | the index view read of `key:list:index:i:cls` |
| LocalCache.LocalSedisCache.Publish | sed-api/src/main/java/de/leycm/sedis/cache/LocalSedisCache.java:473-475 | the registry publishes the Gson encoding |
| LocalCache.LocalSedisCache.Subscribe | sed-api/src/main/java/de/leycm/sedis/cache/LocalSedisCache.java:478-480 | the registry's subscribe |
| LocalCache.LocalSedisCache.Unsubscribe | sed-api/src/main/java/de/leycm/sedis/cache/LocalSedisCache.java:483-485 | the registry's unsubscribe |
| LocalCache.LocalSedisCache.ReceiveMessage | sed-api/src/main/java/de/leycm/sedis/pubsub/SedisPubSubListener.java:21-32 | a received message reaches every subscriber in order; on the coordinator's channels it invalidates the payload key or clears |
| LocalCache.HSetThenHGetIsStale | sed-api/src/main/java/de/leycm/sedis/cache/LocalSedisCache.java:160-174 | as written: after an `hGet` has returned a field, `hSet` of a new value and another `hGet` return the old value while the store holds the new JSON |
| LocalCache.HSetInvalidatingThenHGet | sed-api/src/main/java/de/leycm/sedis/cache/LocalSedisCache.java:160-174 | with the corrected `hSet`, the next `hGet` decodes the JSON just written, and returns the value itself when Gson reads it back |
| LocalCache.KSetThenKGet | sed-api/src/main/java/de/leycm/sedis/cache/LocalSedisCache.java:97-113 | a value written with `kSet` is read back by `kGet` from the local tiers |
| LocalCache.KDeleteThenKGet | sed-api/src/main/java/de/leycm/sedis/cache/LocalSedisCache.java:97-136 | after `kDelete(key)` `kGet` finds nothing |
| LocalCache.SRemoveThenSMembers | sed-api/src/main/java/de/leycm/sedis/cache/LocalSedisCache.java:242-269 | after a successful `sRemove` the set view is rebuilt from the store's members |
| LocalCache.SAddKeepsSetView | sed-api/src/main/java/de/leycm/sedis/cache/LocalSedisCache.java:224-258 | `sAdd` leaves a cached set view in place, so it is returned without the added members |
| PeerCache.Get | sed-api/src/main/java/de/leycm/sedis/local/LocalRedisCache.java:277-314 | only the key's slot can change; an empty answer leaves no slot; a returned object is the one cached |
| PeerCache.GetLocalHit | sed-api/src/main/java/de/leycm/sedis/local/LocalRedisCache.java:277-314 | a local object of the requested class is returned as is, whatever the store holds |
| PeerCache.GetMismatchAsksStore | sed-api/src/main/java/de/leycm/sedis/local/LocalRedisCache.java:277-314 | a local object of another class is evicted and the answer is the store's |
| PeerCache.GetStoreHit | sed-api/src/main/java/de/leycm/sedis/local/LocalRedisCache.java:277-314 | a decoded store value is returned and cached under the key |
| PeerCache.GetFailureCachesNothing | sed-api/src/main/java/de/leycm/sedis/local/LocalRedisCache.java:277-314 | a store miss, failure or bad decode returns empty and caches nothing |
| PeerCache.GetRepeats | sed-api/src/main/java/de/leycm/sedis/local/LocalRedisCache.java:277-314 | after a hit, the next `get` returns the same object whatever the store says |
| PeerCache.Routed | sed-api/src/main/java/de/leycm/sedis/local/LocalRedisCache.java:582-588 | routing by channel only ever removes local entries |
| PeerCache.RoutedOtherChannel | sed-api/src/main/java/de/leycm/sedis/local/LocalRedisCache.java:582-588 | messages on other channels leave the local map unchanged |
| PeerCache.AnnouncementEvictsKey | sed-api/src/main/java/de/leycm/sedis/local/LocalRedisCache.java:547-557 | an announcement on `cache:invalidate` evicts exactly the announced key |
| PeerCache.FlushAnnouncementClears | sed-api/src/main/java/de/leycm/sedis/local/LocalRedisCache.java:559-566 | an announcement on `cache:invalidate:all` empties the local map |
| PeerCache.OwnAnnouncementEvictsWrite | sed-api/src/main/java/de/leycm/sedis/local/LocalRedisCache.java:333-367 | when a writer's own announcement comes back, the object `set` cached is evicted and the next `get` asks the store |
| LocalRedis.LocalRedisCache.constructor | sed-api/src/main/java/de/leycm/sedis/local/LocalRedisCache.java:215-229 | empty local map, not shut down, pool open |
| LocalRedis.LocalRedisCache.Get | sed-api/src/main/java/de/leycm/sedis/local/LocalRedisCache.java:277-314 | shut down: empty; otherwise the `get` function over the store's GET answer, a connection failure read as a store error |
| LocalRedis.LocalRedisCache.Set | sed-api/src/main/java/de/leycm/sedis/local/LocalRedisCache.java:333-352 | shut down: nothing; otherwise the store written, then the local map, then the key announced, each step only if the earlier ones did not fail |
| LocalRedis.LocalRedisCache.Delete | sed-api/src/main/java/de/leycm/sedis/local/LocalRedisCache.java:369-386 | shut down: nothing; otherwise DEL, local eviction, then the key announced, stopping at the first failure |
| LocalRedis.LocalRedisCache.DeleteAll | sed-api/src/main/java/de/leycm/sedis/local/LocalRedisCache.java:402-419 | shut down: nothing; otherwise FLUSHDB, local map cleared, then `all` announced, stopping at the first failure |
| LocalRedis.LocalRedisCache.Add | sed-api/src/main/java/de/leycm/sedis/local/LocalRedisCache.java:432-444 | shut down or failing: nothing; otherwise SADD of the member; the local map untouched |
| LocalRedis.LocalRedisCache.Rem | sed-api/src/main/java/de/leycm/sedis/local/LocalRedisCache.java:457-469 | shut down or failing: nothing; otherwise SREM of the member; the local map untouched; a set emptied by it loses its time to live |
| LocalRedis.LocalRedisCache.Members | sed-api/src/main/java/de/leycm/sedis/local/LocalRedisCache.java:482-493 | the stored set, or empty once shut down or on any failure |
| LocalRedis.LocalRedisCache.ClearCache | sed-api/src/main/java/de/leycm/sedis/local/LocalRedisCache.java:496-498 | empties the local map only |
| LocalRedis.LocalRedisCache.Shutdown | sed-api/src/main/java/de/leycm/sedis/local/LocalRedisCache.java:513-535 | the first call closes the pool and clears the map; a second call changes nothing |
| LocalRedis.LocalRedisCache.OnMessage | sed-api/src/main/java/de/leycm/sedis/local/LocalRedisCache.java:582-588 | invalidate the payload key, clear everything, or ignore, by channel |
| LocalRedis.ShutdownThenUse | sed-api/src/main/java/de/leycm/sedis/local/LocalRedisCache.java:277-367 | after `shutdown`, `get` is empty and `set` changes neither the map nor the store |
| MultiService.MultiServiceRedisCache.constructor | sed-api/src/main/java/de/leycm/sedis/MultiServiceRedisCache.java:114-131 | empty local map, not shut down, pool open |
| MultiService.MultiServiceRedisCache.Get | sed-api/src/main/java/de/leycm/sedis/MultiServiceRedisCache.java:134-168 | shut down: empty; otherwise the shared `get` function over the store's answer |
| MultiService.MultiServiceRedisCache.Set | sed-api/src/main/java/de/leycm/sedis/MultiServiceRedisCache.java:171-189 | shut down: nothing; otherwise store, local map, then the key announced, stopping at the first failure |
| MultiService.MultiServiceRedisCache.Delete | sed-api/src/main/java/de/leycm/sedis/MultiServiceRedisCache.java:192-208 | shut down: nothing; otherwise DEL, local eviction, then the key announced |
| MultiService.MultiServiceRedisCache.DeleteAll | sed-api/src/main/java/de/leycm/sedis/MultiServiceRedisCache.java:211-227 | shut down: nothing; otherwise FLUSHDB, local map cleared, then `all` announced |
| MultiService.MultiServiceRedisCache.Shutdown | sed-api/src/main/java/de/leycm/sedis/MultiServiceRedisCache.java:229-249 | the first call closes the pool and clears the map; a second call changes nothing |
| MultiService.MultiServiceRedisCache.OnMessage | sed-api/src/main/java/de/leycm/sedis/MultiServiceRedisCache.java:279-285 | invalidate the payload key, clear everything, or ignore, by channel |
| MultiService.ShutdownThenUse | sed-api/src/main/java/de/leycm/sedis/MultiServiceRedisCache.java:134-190 | after `shutdown`, `get` is empty and `set` changes neither the map nor the store |
| Requests.AsString | sed-api/src/main/java/de/leycm/sedis/request/SedisRequest.java:11-13 | starts with the prefix and a backslash; one part gives `prefix\part` |
| Requests.DifferentCountsNeverEqual | sed-api/src/main/java/de/leycm/sedis/request/SedisRequest.java:15-18 | requests with different part counts are never equal |
| Requests.DefaultEqualsReflexiveSymmetric | sed-api/src/main/java/de/leycm/sedis/request/SedisRequest.java:15-18 | default equality is reflexive and symmetric |
| Requests.DefaultEqualsIgnoresDelimiter | sed-api/src/main/java/de/leycm/sedis/request/SedisRequest.java:11-18 | equality compares the backslash-delimited form, whatever delimiter another caller uses |
| Requests.DefaultEqualsCollides | sed-api/src/main/java/de/leycm/sedis/request/SedisRequest.java:11-18 | a backslash inside a part makes two different requests with equal counts compare equal |
| Requests.DefaultEqualsExact | sed-api/src/main/java/de/leycm/sedis/request/SedisRequest.java:11-18 | without backslashes, default equality is equality of prefix and parts |
| Requests.JoinInjective | sed-api/src/main/java/de/leycm/sedis/request/SedisRequest.java:11-13 | joining parts free of the delimiter loses nothing |
| Requests.ValueRequest.ToStrings | sed-api/src/main/java/de/leycm/sedis/request/SedisValueRequest.java:13-15 | the key alone |
| Requests.ValueRequest.ToString | sed-api/src/main/java/de/leycm/sedis/request/SedisValueRequest.java:23-25 | `value\` followed by the key |
| Requests.ValueRequest.HashCode | sed-api/src/main/java/de/leycm/sedis/request/SedisValueRequest.java:35-37 | the string hash of `value\` followed by the key, so it depends on the key alone |
| Requests.ValueEqualsIffSameKey | sed-api/src/main/java/de/leycm/sedis/request/SedisValueRequest.java:28-32 | null and other objects are unequal; value requests are equal exactly when their keys are |
| Requests.EqualRequestsHashAlike | sed-api/src/main/java/de/leycm/sedis/request/SedisValueRequest.java:28-38 | equal requests have equal hash codes |
| Results.Fresh | sed-api/src/main/java/de/leycm/sedis/pool/SedisResult.java:44-47 | empty when absent; otherwise the fresh decoding, a null refused by `Optional.of` |
| Results.AsWritten | sed-api/src/main/java/de/leycm/sedis/pool/SedisResult.java:37-41 | as written: absent gives empty; the cached entry is `Optional.of(decoded)`, cast to the requested class |
| Results.AsWrittenNeverYields | sed-api/src/main/java/de/leycm/sedis/pool/SedisResult.java:37-41 | as written, `as(c)` never yields a value for a class `Optional` is not an instance of |
| Results.AsWrittenStringThrows | sed-api/src/main/java/de/leycm/sedis/pool/SedisResult.java:37-41 | a text that decodes fine, read through `as(String.class)`, throws ClassCastException |
| Results.CachedAs | sed-api/src/main/java/de/leycm/sedis/pool/SedisResult.java:37-41 | corrected `as`: only the class's slot changes; an existing slot is kept |
| Results.AsAgreesWithFresh | sed-api/src/main/java/de/leycm/sedis/pool/SedisResult.java:37-47 | corrected `as` keeps the cache a set of decodings and answers what `asNew` would |
| Results.AsDecodesOnce | sed-api/src/main/java/de/leycm/sedis/pool/SedisResult.java:37-41 | after one successful `as(c)`, later calls return the same object whatever the codec does |
| Results.SedisResult.constructor | sed-api/src/main/java/de/leycm/sedis/pool/SedisResult.java:22-29 | the key and value as given, with an empty class cache |
| Results.SedisResult.AsString | sed-api/src/main/java/de/leycm/sedis/pool/SedisResult.java:31-33 | present exactly when the value is, and then the value |
| Results.SedisResult.As | sed-api/src/main/java/de/leycm/sedis/pool/SedisResult.java:37-41 | returns and caches as the corrected `as` prescribes |
| Results.SedisResult.AsNew | sed-api/src/main/java/de/leycm/sedis/pool/SedisResult.java:44-47 | a fresh decoding each time, the cache untouched |
| Results.SedisResult.Clear | sed-api/src/main/java/de/leycm/sedis/pool/SedisResult.java:55-58 | value gone and class cache empty |
| Results.ClearThenAs | sed-api/src/main/java/de/leycm/sedis/pool/SedisResult.java:31-60 | after `clear`, `as` is empty for every class and `asString` is empty |
| ResultPool.CachedSedisPool.constructor | sed-api/src/main/java/de/leycm/sedis/cache/CachedSedisPool.java:22-28 | empty memo table, connection open |
| ResultPool.CachedSedisPool.KGet | sed-api/src/main/java/de/leycm/sedis/cache/CachedSedisPool.java:32-36 | a memoised result for an equal request is returned as is; otherwise GET once and memoise the new result |
| ResultPool.CachedSedisPool.KSet | sed-api/src/main/java/de/leycm/sedis/cache/CachedSedisPool.java:39-43 | SET of the encoded value; the memo table keeps a stale result |
| ResultPool.CachedSedisPool.KSetEx | sed-api/src/main/java/de/leycm/sedis/cache/CachedSedisPool.java:46-51 | SETEX; a non-positive ttl is refused |
| ResultPool.CachedSedisPool.KDelete | sed-api/src/main/java/de/leycm/sedis/cache/CachedSedisPool.java:54-59 | one DEL per key; the keys are gone from the store |
| ResultPool.CachedSedisPool.KExists | sed-api/src/main/java/de/leycm/sedis/cache/CachedSedisPool.java:62-66 | true for a memoised key even with an empty result; otherwise EXISTS |
| ResultPool.CachedSedisPool.KExpire | sed-api/src/main/java/de/leycm/sedis/cache/CachedSedisPool.java:69-72 | EXPIRE: a non-positive time deletes the key, a positive one marks it expiring |
| ResultPool.CachedSedisPool.Close | sed-api/src/main/java/de/leycm/sedis/cache/CachedSedisPool.java:80-83 | connection closed and memo table emptied |
| ResultPool.CachedSedisPool.Clear | sed-api/src/main/java/de/leycm/sedis/cache/CachedSedisPool.java:85-87 | memo table emptied |
| ResultPool.CachedSedisPool.Invalidate | sed-api/src/main/java/de/leycm/sedis/cache/CachedSedisPool.java:89-93 | a memoised result is cleared in place for every holder and unmapped; an unknown request changes nothing |
| ResultPool.KGetTwice | sed-api/src/main/java/de/leycm/sedis/cache/CachedSedisPool.java:32-36 | two `kGet`s of one key share one result and read the store at most once |
| ResultPool.KSetKeepsMemo | sed-api/src/main/java/de/leycm/sedis/cache/CachedSedisPool.java:32-44 | a result memoised before `kSet` is served afterwards with the old text |
| ResultPool.KExistsAfterKDelete | sed-api/src/main/java/de/leycm/sedis/cache/CachedSedisPool.java:54-67 | a memoised key is still reported existing after `kDelete` removed it |
| Repository.RepoKey | sed-api/src/main/java/de/leycm/sedis/RedisRepository.java:201-203 | starts with `Class:` followed by the mapped key |
| Repository.KeySetName | sed-api/src/main/java/de/leycm/sedis/RedisRepository.java:110-112 | the repository key of the mapped key `keys` |
| Repository.RedisRepository.KeyOf | sed-api/src/main/java/de/leycm/sedis/RedisRepository.java:201-203 | under `Class:`; extracted back to the mapped key when that is not empty and the class name has no colon |
| Repository.ExtractOriginalKey | sed-api/src/main/java/de/leycm/sedis/RedisRepository.java:214-218 | a key without a colon comes back whole; never longer than its input |
| Repository.ExtractAfterRepoKey | sed-api/src/main/java/de/leycm/sedis/RedisRepository.java:201-228 | the non-empty mapped key comes back out of a repository key, colons in it included |
| Repository.EmptyMappedKeyKept | sed-api/src/main/java/de/leycm/sedis/RedisRepository.java:214-218 | an empty mapped key does not come back: `Class:` is returned whole |
| Repository.KeysKeyCollides | sed-api/src/main/java/de/leycm/sedis/RedisRepository.java:139-142 | a key mapped to `keys` collides with the tracking set, so the SADD that tracks it is refused |
| Repository.LookupOfTrackedKey | sed-api/src/main/java/de/leycm/sedis/RedisRepository.java:230-235 | with an idempotent mapper, iteration looks up exactly the stored repository key |
| Repository.NonIdempotentMapperMisses | sed-api/src/main/java/de/leycm/sedis/RedisRepository.java:230-235 | with a non-idempotent mapper, iteration looks up a key that was never stored |
| Repository.RedisRepository.constructor | sed-api/src/main/java/de/leycm/sedis/RedisRepository.java:91-99 | the cache, class and mapper as given |
| Repository.RedisRepository.Get | sed-api/src/main/java/de/leycm/sedis/RedisRepository.java:121-123 | the cache's `get` of the repository key |
| Repository.RedisRepository.Set | sed-api/src/main/java/de/leycm/sedis/RedisRepository.java:139-142 | shut down: nothing changes; otherwise the value stored under the repository key with its time to live cleared, the key added to `Class:keys`, the local entry set and its invalidation published |
| Repository.RedisRepository.Delete | sed-api/src/main/java/de/leycm/sedis/RedisRepository.java:168-171 | shut down: nothing changes; otherwise the value deleted with its time to live, the key removed from `Class:keys` (which loses its time to live if emptied), the local entry evicted and its invalidation published |
| Repository.RedisRepository.GetKeys | sed-api/src/main/java/de/leycm/sedis/RedisRepository.java:182-188 | the tracked repository keys with their class prefix cut off; empty once shut down |
| Repository.RedisRepository.Values | sed-api/src/main/java/de/leycm/sedis/RedisRepository.java:230-235 | one lookup per extracted key, the empty answers dropped; never more values than tracked keys |
| Repository.LookupKeys | sed-api/src/main/java/de/leycm/sedis/RedisRepository.java:182-235 | iteration looks up each tracked key's remapped form, and there are no more keys than tracked ones |
| Repository.ExtractedNoMore | sed-api/src/main/java/de/leycm/sedis/RedisRepository.java:182-188 | extracting keys never yields more keys than were tracked |
| Repo.ReRepoKeyRoundTrip | sed-api/src/main/java/de/leycm/sedis/entries/SedisRepo.java:77-84 | `reRepoKey(repoKey(k)) == reMapKey(mapKey(k))` when the class name has no colon, an empty mapped key included |
| Repo.ReRepoKeyWithoutColon | sed-api/src/main/java/de/leycm/sedis/entries/SedisRepo.java:81-84 | a stored key without a colon is handed to `reMapKey` whole |
| Repo.KeysOf | sed-api/src/main/java/de/leycm/sedis/entries/SedisRepo.java:57-62 | succeeds exactly when every member is a non-null `String`, and then gives their re-mapped keys |
| Repo.SedisRepo.constructor | sed-api/src/main/java/de/leycm/sedis/entries/SedisRepo.java:19-25 | the cache and class as given |
| Repo.SedisRepo.Get | sed-api/src/main/java/de/leycm/sedis/entries/SedisRepo.java:38-40 | the cache's read-through of the repository key, a typed-slot entry returned as it is |
| Repo.SedisRepo.Set | sed-api/src/main/java/de/leycm/sedis/entries/SedisRepo.java:46-50 | `kSet` of the repository key, then SADD of that key's JSON text to `Class:keys`; the key's time to live and expiry task go, every other task is kept, the local tiers hold the value, and nothing is published |
| Repo.SedisRepo.Delete | sed-api/src/main/java/de/leycm/sedis/entries/SedisRepo.java:52-55 | `kDelete` of the repository key, then SREM of it from `Class:keys`; the key's raw slot, typed slots, expiry and task go, `Class:keys` loses its time to live if emptied, its invalidation is announced, and a successful SREM also drops the set views of `Class:keys` |
| Repo.SedisRepo.Key | sed-api/src/main/java/de/leycm/sedis/entries/SedisRepo.java:29-31 | the class name, under which every repository key and the tracking set lie |
| Repo.SedisRepo.KeyOf | sed-api/src/main/java/de/leycm/sedis/entries/SedisRepo.java:77-79 | `Class:` followed by the mapped key; `reRepoKey` of it is `reMapKey(mapKey(k))` when the class name has no colon |
| Repo.SedisRepo.KeySetName | sed-api/src/main/java/de/leycm/sedis/entries/SedisRepo.java:86-88 | the repository key of the mapped key `keys` |
| Repo.SedisRepo.GetKeys | sed-api/src/main/java/de/leycm/sedis/entries/SedisRepo.java:57-62 | the tracking set's view read as strings and re-mapped |
| Repo.SedisRepo.Values | sed-api/src/main/java/de/leycm/sedis/entries/SedisRepo.java:64-70 | a `getKeys` failure escapes; absent values are skipped, so there are never more values than keys |
| SetEntry.Instances | sed-api/src/main/java/de/leycm/sedis/entries/SedisSet.java:96-101 | exactly the elements of the collection that are instances of the class |
| SetEntry.Dropped | sed-api/src/main/java/de/leycm/sedis/entries/SedisSet.java:96-111 | `retainAll`'s victims: every member not among the retained `cls` elements, so those left are retained |
| SetEntry.DroppedInstances | sed-api/src/main/java/de/leycm/sedis/entries/SedisSet.java:104-109 | exactly the victims that are instances, which `remove` sends to the store |
| SetEntry.ContainsAt | sed-api/src/main/java/de/leycm/sedis/entries/SedisSet.java:50-53 | false for a null or non-V object; true only when the encoded value is a member |
| SetEntry.AllContainedIff | sed-api/src/main/java/de/leycm/sedis/entries/SedisSet.java:86-88 | over a stored set, `containsAll` holds exactly when every element is a V whose JSON is a member |
| SetEntry.SedisSet.constructor | sed-api/src/main/java/de/leycm/sedis/entries/SedisSet.java:11-15 | the cache, key and class as given |
| SetEntry.SedisSet.AddValues | sed-api/src/main/java/de/leycm/sedis/entries/SedisSet.java:17-21 | an empty collection issues no store call; otherwise SADD of all values; the local tiers, expiries and published messages are unchanged |
| SetEntry.SedisSet.RemoveValues | sed-api/src/main/java/de/leycm/sedis/entries/SedisSet.java:31-35 | an empty collection issues no store call; otherwise SREM of all values, and a successful SREM drops the set views of the key; a set emptied by SREM loses its time to live, and other expiries and published messages are unchanged |
| SetEntry.SedisSet.IsMember | sed-api/src/main/java/de/leycm/sedis/entries/SedisSet.java:23-25 | membership of the encoded value |
| SetEntry.SedisSet.Members | sed-api/src/main/java/de/leycm/sedis/entries/SedisSet.java:27-29 | the cache's set view read |
| SetEntry.SedisSet.LongSize | sed-api/src/main/java/de/leycm/sedis/entries/SedisSet.java:41-43 | the stored cardinality |
| SetEntry.SedisSet.Size | sed-api/src/main/java/de/leycm/sedis/entries/SedisSet.java:37-39 | the cardinality narrowed to 32 bits by `Long.intValue` |
| SetEntry.SedisSet.IsEmpty | sed-api/src/main/java/de/leycm/sedis/entries/SedisSet.java:45-48 | true exactly when the cardinality is 0 |
| SetEntry.SedisSet.Contains | sed-api/src/main/java/de/leycm/sedis/entries/SedisSet.java:50-53 | false for non-V objects, otherwise store membership |
| SetEntry.SedisSet.Add | sed-api/src/main/java/de/leycm/sedis/entries/SedisSet.java:70-75 | SADD of the value; true whenever SADD does not throw; the local tiers, expiries and published messages are unchanged |
| SetEntry.SedisSet.Remove | sed-api/src/main/java/de/leycm/sedis/entries/SedisSet.java:77-83 | false with no effect for non-V; true for any V, member or not, when SREM does not throw, and then the set views of the key are dropped; a throw leaves the local tiers alone; a set emptied by SREM loses its time to live, and other expiries and published messages are unchanged |
| SetEntry.SedisSet.ContainsAll | sed-api/src/main/java/de/leycm/sedis/entries/SedisSet.java:86-88 | `allMatch(contains)`, stopping at the first false or throw |
| SetEntry.SedisSet.AddAll | sed-api/src/main/java/de/leycm/sedis/entries/SedisSet.java:90-94 | `add(c)` then true; the local tiers, expiries and published messages are unchanged |
| SetEntry.SedisSet.RemoveAll | sed-api/src/main/java/de/leycm/sedis/entries/SedisSet.java:113-120 | true exactly when the collection holds a V; their JSON texts leave the stored set; a non-set key throws at the first V; a true result leaves the set views of the key dropped and otherwise the local tiers are unchanged; a set emptied by SREM loses its time to live, and other expiries and published messages are unchanged |
| SetEntry.SedisSet.RetainAll | sed-api/src/main/java/de/leycm/sedis/entries/SedisSet.java:96-111 | true exactly when some member was a victim; the victims' JSON texts leave the stored set; a read failure escapes; the local tiers are those the members read leaves, with the set views dropped once a V victim is removed; a set emptied by SREM loses its time to live, and other expiries and published messages are unchanged |
| SetEntry.SedisSet.Clear | sed-api/src/main/java/de/leycm/sedis/entries/SedisSet.java:122-125 | deletes the key, so the stored set is empty; its expiry, raw slot, typed slots and task go and its invalidation is announced |
| SetEntry.AddThenContains | sed-api/src/main/java/de/leycm/sedis/entries/SedisSet.java:50-75 | an added V is contained right afterwards |
| SetEntry.RemoveThenContains | sed-api/src/main/java/de/leycm/sedis/entries/SedisSet.java:50-83 | a removed V is not contained right afterwards |
| SetEntry.ClearThenSize | sed-api/src/main/java/de/leycm/sedis/entries/SedisSet.java:37-125 | after `clear` the set is empty and its size is 0 |
| JavaString.IndexOf | sed-api/src/main/java/de/leycm/sedis/RedisRepository.java:215 | `String.indexOf(char)`: the first position of the character, or -1 |
| JavaString.TrimEmptyIffAllBlank | sed-api/src/main/java/de/leycm/sedis/local/LocalRedisCacheCreator.java:126 | `s.trim().isEmpty()` holds exactly when every character is at most U+0020 |
| JavaString.IntValueWrapsAtTwoToThe31 | sed-api/src/main/java/de/leycm/sedis/entries/SedisSet.java:37-39 | a set of 2^31 members reports `size()` of -2^31 |
| Jvm.OptionalOf | sed-api/src/main/java/de/leycm/sedis/pool/SedisResult.java:37-42 | an `Optional` is an `Optional` and never a `String` |
| JavaString.IntValue | sed-api/src/main/java/de/leycm/sedis/entries/SedisSet.java:38 | `Long.intValue`: the low 32 bits as a signed int, the identity on the int range |
| JavaString.HashWordIsPolynomialMod | sed-api/src/main/java/de/leycm/sedis/request/SedisValueRequest.java:36 | the 32-bit word of the hash is the exact polynomial `s[0]*31^(n-1) + ... + s[n-1]` modulo 2^32 |
| JavaString.HashCode | sed-api/src/main/java/de/leycm/sedis/request/SedisValueRequest.java:36 | `String.hashCode`: the signed 32-bit int congruent to the exact polynomial modulo 2^32 |
| JavaString.Digits | sed-api/src/main/java/de/leycm/sedis/cache/LocalSedisCache.java:301 | decimal digits, most significant first, that read back to the number, with no leading zero |
| JavaString.ValueOf | sed-api/src/main/java/de/leycm/sedis/cache/LocalSedisCache.java:301 | `String.valueOf(long)`: no colon; a minus sign exactly for a negative number, followed by digits that read back to its magnitude |
| JavaString.SplitJoin | sed-api/src/main/java/de/leycm/sedis/cache/CacheStorage.java:49-51 | joining colon-free parts with a colon and splitting at colons gives the parts back |
| Creator.LocalRedisCacheCreator.constructor | sed-api/src/main/java/de/leycm/sedis/local/LocalRedisCacheCreator.java:86-116 | host `localhost`, port 6379, no password, pool or gson |
| Creator.LocalRedisCacheCreator.WithHost | sed-api/src/main/java/de/leycm/sedis/local/LocalRedisCacheCreator.java:125-131 | refuses a host that `trim` empties and keeps the old one; nothing else changes |
| Creator.LocalRedisCacheCreator.WithPort | sed-api/src/main/java/de/leycm/sedis/local/LocalRedisCacheCreator.java:140-148 | accepts exactly 1..65535, otherwise refuses and keeps the old port |
| Creator.LocalRedisCacheCreator.WithPassword | sed-api/src/main/java/de/leycm/sedis/local/LocalRedisCacheCreator.java:159-162 | sets the password only |
| Creator.LocalRedisCacheCreator.WithJedisPool | sed-api/src/main/java/de/leycm/sedis/local/LocalRedisCacheCreator.java:175-178 | sets the pool only |
| Creator.LocalRedisCacheCreator.WithGson | sed-api/src/main/java/de/leycm/sedis/local/LocalRedisCacheCreator.java:191-194 | sets the gson only |
| Creator.LocalRedisCacheCreator.Create | sed-api/src/main/java/de/leycm/sedis/local/LocalRedisCacheCreator.java:209-222 | a pool wins, with the custom or default gson; without one a blank host is refused, a password selects the secured constructor, and a custom gson is dropped |
| Creator.LocalRedisCacheCreator.ValidateConfiguration | sed-api/src/main/java/de/leycm/sedis/local/LocalRedisCacheCreator.java:230-237 | skipped with a pool; otherwise a blank host is refused |
| Creator.ForAddress | sed-api/src/main/java/de/leycm/sedis/local/LocalRedisCacheCreator.java:288-292 | `withHost` then `withPort`; succeeds exactly when both accept |
| Creator.WithExistingPool | sed-api/src/main/java/de/leycm/sedis/local/LocalRedisCacheCreator.java:304-307 | a default creator with the pool set |
| Creator.ForSecuredInstance | sed-api/src/main/java/de/leycm/sedis/local/LocalRedisCacheCreator.java:318-325 | `forAddress` then `withPassword` |
| Creator.DefaultCreate | sed-api/src/main/java/de/leycm/sedis/local/LocalRedisCacheCreator.java:209-271 | with no settings, `create` calls the plain constructor for localhost:6379 |
| Creator.PoolOverridesAddress | sed-api/src/main/java/de/leycm/sedis/local/LocalRedisCacheCreator.java:209-221 | a pool makes `create` ignore host and password, with the default gson |
| Builder.LocalSedisCacheBuilder.constructor | sed-api/src/main/java/de/leycm/sedis/builder/LocalSedisCacheBuilder.java:18-50 | every field at its initialiser: localhost, 6379, db 0, maxTotal 8, maxIdle 8, minIdle 0, 2 scheduler and 4 executor threads |
| Builder.LocalSedisCacheBuilder.ForAddress | sed-api/src/main/java/de/leycm/sedis/builder/LocalSedisCacheBuilder.java:57-61 | host and port set with no check; nothing else changes |
| Builder.LocalSedisCacheBuilder.ForHost | sed-api/src/main/java/de/leycm/sedis/builder/LocalSedisCacheBuilder.java:63-66 | host set with no check |
| Builder.LocalSedisCacheBuilder.WithPort | sed-api/src/main/java/de/leycm/sedis/builder/LocalSedisCacheBuilder.java:68-71 | port set with no check |
| Builder.LocalSedisCacheBuilder.WithPassword | sed-api/src/main/java/de/leycm/sedis/builder/LocalSedisCacheBuilder.java:73-76 | password set |
| Builder.LocalSedisCacheBuilder.WithDatabase | sed-api/src/main/java/de/leycm/sedis/builder/LocalSedisCacheBuilder.java:78-84 | accepts exactly 0..15; otherwise refuses and changes nothing |
| Builder.LocalSedisCacheBuilder.WithTimeout | sed-api/src/main/java/de/leycm/sedis/builder/LocalSedisCacheBuilder.java:86-89 | timeout set |
| Builder.LocalSedisCacheBuilder.WithMaxConnections | sed-api/src/main/java/de/leycm/sedis/builder/LocalSedisCacheBuilder.java:91-95 | both maxTotal and maxIdle set, nothing else |
| Builder.LocalSedisCacheBuilder.WithMaxTotal | sed-api/src/main/java/de/leycm/sedis/builder/LocalSedisCacheBuilder.java:97-100 | maxTotal set |
| Builder.LocalSedisCacheBuilder.WithMaxIdle | sed-api/src/main/java/de/leycm/sedis/builder/LocalSedisCacheBuilder.java:102-105 | maxIdle set |
| Builder.LocalSedisCacheBuilder.WithMinIdle | sed-api/src/main/java/de/leycm/sedis/builder/LocalSedisCacheBuilder.java:107-110 | minIdle set |
| Builder.LocalSedisCacheBuilder.WithTestOnBorrow | sed-api/src/main/java/de/leycm/sedis/builder/LocalSedisCacheBuilder.java:112-115 | testOnBorrow set |
| Builder.LocalSedisCacheBuilder.WithTestOnReturn | sed-api/src/main/java/de/leycm/sedis/builder/LocalSedisCacheBuilder.java:117-120 | testOnReturn set |
| Builder.LocalSedisCacheBuilder.WithTestWhileIdle | sed-api/src/main/java/de/leycm/sedis/builder/LocalSedisCacheBuilder.java:122-125 | testWhileIdle set |
| Builder.LocalSedisCacheBuilder.WithTimeBetweenEvictionRuns | sed-api/src/main/java/de/leycm/sedis/builder/LocalSedisCacheBuilder.java:127-130 | eviction interval set |
| Builder.LocalSedisCacheBuilder.WithMinEvictableIdleTime | sed-api/src/main/java/de/leycm/sedis/builder/LocalSedisCacheBuilder.java:132-135 | minimum evictable idle time set |
| Builder.LocalSedisCacheBuilder.WithBlockWhenExhausted | sed-api/src/main/java/de/leycm/sedis/builder/LocalSedisCacheBuilder.java:137-140 | blockWhenExhausted set |
| Builder.LocalSedisCacheBuilder.WithMaxWaitTime | sed-api/src/main/java/de/leycm/sedis/builder/LocalSedisCacheBuilder.java:142-145 | maximum wait set |
| Builder.LocalSedisCacheBuilder.WithSchedulerThreads | sed-api/src/main/java/de/leycm/sedis/builder/LocalSedisCacheBuilder.java:147-153 | accepts at least 1; otherwise refuses and changes nothing |
| Builder.LocalSedisCacheBuilder.WithExecutorThreads | sed-api/src/main/java/de/leycm/sedis/builder/LocalSedisCacheBuilder.java:155-161 | accepts at least 1; otherwise refuses and changes nothing |
| Builder.LocalSedisCacheBuilder.WithThreadNamePrefix | sed-api/src/main/java/de/leycm/sedis/builder/LocalSedisCacheBuilder.java:163-166 | thread name prefix set |
| Builder.LocalSedisCacheBuilder.WithPrettyJson | sed-api/src/main/java/de/leycm/sedis/builder/LocalSedisCacheBuilder.java:168-171 | pretty printing flag set |
| Builder.LocalSedisCacheBuilder.WithSerializeNulls | sed-api/src/main/java/de/leycm/sedis/builder/LocalSedisCacheBuilder.java:173-176 | null serialisation flag set |
| Builder.LocalSedisCacheBuilder.WithGson | sed-api/src/main/java/de/leycm/sedis/builder/LocalSedisCacheBuilder.java:178-181 | custom gson set |
| Builder.LocalSedisCacheBuilder.WithCustomScheduler | sed-api/src/main/java/de/leycm/sedis/builder/LocalSedisCacheBuilder.java:183-186 | custom scheduler set |
| Builder.LocalSedisCacheBuilder.WithCustomExecutor | sed-api/src/main/java/de/leycm/sedis/builder/LocalSedisCacheBuilder.java:188-191 | custom executor set |
| Builder.LocalSedisCacheBuilder.WithCustomJedisPool | sed-api/src/main/java/de/leycm/sedis/builder/LocalSedisCacheBuilder.java:193-196 | custom pool set |
| Builder.LocalSedisCacheBuilder.Build | sed-api/src/main/java/de/leycm/sedis/builder/LocalSedisCacheBuilder.java:198-226 | each custom scheduler, executor, pool or gson is used as supplied; each missing one is created from the settings, a new pool with every pool setting and the timeout, exact when it fits an int |
| Builder.LocalSedisCacheBuilder.CreateJedisPool | sed-api/src/main/java/de/leycm/sedis/builder/LocalSedisCacheBuilder.java:228-244 | a new pool over every pool setting, the connection settings, and the timeout narrowed to an int |
| Builder.LocalSedisCacheBuilder.CreateGson | sed-api/src/main/java/de/leycm/sedis/builder/LocalSedisCacheBuilder.java:246-258 | pretty printing and null serialisation exactly when their flags are set |
| Builder.DefaultBuild | sed-api/src/main/java/de/leycm/sedis/builder/LocalSedisCacheBuilder.java:18-258 | a default builder builds a pool for localhost:6379, db 0, with 2 scheduler and 4 executor daemon threads and a plain gson |
| Builder.RefusedDatabaseKept | sed-api/src/main/java/de/leycm/sedis/builder/LocalSedisCacheBuilder.java:78-243 | a refused database index leaves database 0 in the pool that `build` creates |

## Left out

- `SedisPubSubThread` as a whole: waiting on latches, interrupt and join, and the blocking subscribe are concurrency. The listener is its running flag and the log of forwarded subscriptions.
- The reconnect loops in `startPubSubListener` of `LocalRedisCache` and `MultiServiceRedisCache`, with their five-second sleeps, are threads and timing. Only their `onMessage` routing is modelled.
- Concurrency of `ConcurrentHashMap` and races between a firing expiry check and a reschedule: everything runs sequentially, and firing is an explicit step.
- Scheduler and executor timing, the `async` helper of `LocalSedisCache`, and the `awaitTermination` waits on shutdown.
  - A TTL is a number of seconds, and only its sign matters to the store. A Java `Duration` is a number of milliseconds. `Duration.toMillis` overflow is not modelled.
- Sorted-set scores are doubles, and floating point is out of scope. This leaves out:
  - `zAdd` of a score map;
  - `zScore`, `zRank`, `zRevRank`;
  - score values: `zAdd` is given the rank the score would give the member, and the server keeps members in rank order.
- `hGetAll` builds a map of decoded entries through Gson internals, so it is omitted.
- Operations that only delegate one store call, with no local caching: `kTTL`, `hExists`, `hLen`, `zCard`, `lLen`, `SedisRepo.getValue`, `RedisRepository.getValue`, and `SedisSet.toArray`/`iterator`, which copy `members()`.
- Thread-factory naming: a created thread pool is described by its thread count, name prefix and daemon flag. The per-thread numbering is left out.
- Real Jedis and Gson objects:
  - `Creator.LocalRedisCacheCreator.Create` returns the constructor it selects with that constructor's arguments, not a live cache;
  - `Builder.LocalSedisCacheBuilder.Build` returns the scheduler, executor, pool and Gson it would pass on;
  - `createDefaultGson` keeps only the settings it chooses.
- The repository key type `K` is a string, and `keyMapper`, `mapKey` and `reMapKey` are arbitrary string functions.
- `JavaString.HashCode` is `String.hashCode` over characters taken as UTF-16 code units. Characters outside the Basic Multilingual Plane are not split into surrogate pairs.
- Set iteration order in `RedisRepository.iterator`, `SedisRepo.iterator` and `SedisSet.retainAll` is a fixed sequence order in the model.
- SetEntry.SedisSet.RetainAll: its result is stated on the stored JSON texts of the victims, not on decoded members.
- SetEntry.SedisSet.RemoveAll: its result is stated on the stored JSON texts, not on decoded members.
- Repository.RedisRepository.Values: the result is bounded by the tracked keys and built from `get` answers. Which answers are present is not restated element by element.
- Repo.SedisRepo.Values: the same.
- Invalidation.CacheInvalidationManager.PublishInvalidation: the coordinator publishes the JSON text of the key, and the receiving side invalidates the payload as received. No lemma claims that the remote node evicts the same key string.
- Transport faults are not modelled: a dropped connection, an exhausted pool, or a `publish` that throws. LocalCache.LocalSedisCache.KSet, KSetEx, KDelete, HSet, HDelete, SAdd, SRemove, LPush, RPush, LSet, ZAdd, ZRemove and Publish fail only with the store's own errors. So the partial state such a fault leaves behind is not modelled.
- LocalCache.LocalSedisCache.KDelete: a `publishInvalidation` that throws partway through the loop is not modelled. In Java the store has then deleted every key, but only the earlier keys are invalidated locally and announced.
- User `equals` and `hashCode` overrides of value classes are not modelled. `Obj` equality is structural over the class, the superclasses and the state, and `contains`, `remove` and `retainAll` compare with that equality.
- ReadPath.SetViewRead: a plain value cached in the typed slot of a set view gives ClassCast, even when that object is a `java.util.Set`. This can happen after `kSet("k:set", hs)` and then `kGet("k:set", HashSet.class)`. In Java the erased `(Set<V>)` cast lets such a set through, and `sMembers` returns it. The model's objects are opaque, so their elements cannot be read. So through `LocalCache.LocalSedisCache.SMembers`, `SetEntry.SedisSet.Members`, `SetEntry.SedisSet.RetainAll` and `Repo.SedisRepo.GetKeys` the model reports ClassCast where Java would go on with the foreign set.
- ReadPath.ListViewRead: the same holds for a plain `java.util.List` in the typed slot of a range view, reached through `kGet` on a colliding key. The model gives ClassCast through `LocalCache.LocalSedisCache.CachedRange`, `ZRange`, `ZRevRange` and `LRange`, where Java's erased `(List<V>)` cast returns the list.
- When several Java failures could happen in one call, the model reports the first one the Java would reach. Exception types beyond that distinction are not modelled.

## Findings

| source | as written | input that shows it | evidently intended | confidence | as-written member | corrected member |
|---|---|---|---|---|---|---|
| sed-api/src/main/java/de/leycm/sedis/pool/SedisResult.java:37-42 | `as(c)` caches `asNew(c)`, which is an `Optional`, and then casts that `Optional` to `c` | a present value `"x"` read with `as(String.class)`, where Gson decodes `"x"` to the string `"x"`: `tClass.cast` of an `Optional` throws ClassCastException | cache the decoded object itself and return it, decoding at most once per class | not executed | Results.AsWrittenStringThrows | Results.CachedAs |
| sed-api/src/main/java/de/leycm/sedis/cache/LocalSedisCache.java:160-174 | `hSet` writes the field to the store but does not invalidate the local entry that `hGet` caches under `key:hkJson` | `hGet(key, f)` returns `a` and caches it; then `hSet(key, f, b)`; the next `hGet(key, f)` still returns `a`, although the store holds `b` | invalidate `key:hkJson` after the HSET, as `hDelete` does for each field, so that `hGet` reads the new value | not executed | LocalCache.HSetThenHGetIsStale | LocalCache.LocalSedisCache.HSetInvalidating |
