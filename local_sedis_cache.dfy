/**
 * The node-local cache facade: every operation talks to the store and
 * keeps the local tiers, the expiry checks and the invalidation channel
 * in step with it.
 */
module LocalCache {
  import opened Wrappers
  import opened JavaString
  import opened Jvm
  import opened LocalStore
  import opened ReadPath
  import opened PubSub
  import opened Invalidation
  import Server

  /** The store read behind a single-value lookup: GET of a key or HGET of a field. */
  datatype Getter = ValueGetter(key: string) | FieldGetter(key: string, field: string)

  function Fetch(data: map<string, Server.Entry>, getter: Getter): Result<Option<string>>
  {
    match getter
    case ValueGetter(k) => Server.StringAt(data, k)
    case FieldGetter(k, f) => Server.FieldAt(data, k, f)
  }

  /** The store read behind a cached range view. */
  datatype RangeSource = ZSetRange(key: string, start: int, end: int, rev: bool) | ListRange(key: string, start: int, end: int)

  function FetchRange(data: map<string, Server.Entry>, src: RangeSource): Result<seq<string>>
  {
    match src
    case ZSetRange(k, s, e, rev) => Server.ZRangeAt(data, k, s, e, rev)
    case ListRange(k, s, e) => Server.LRangeAt(data, k, s, e)
  }

  /** `Arrays.stream(values).map(gson::toJson)`. */
  function Encoded(g: Gson, vs: seq<Obj>): (r: seq<string>)
    ensures |r| == |vs| && forall i | 0 <= i < |vs| :: r[i] == g.toJson(vs[i])
  {
    seq(|vs|, i requires 0 <= i < |vs| => g.toJson(vs[i]))
  }

  /** `m` without the keys lying under any `keys[i] + ":"`. */
  function WithoutKeys<V>(m: map<string, V>, keys: seq<string>): (r: map<string, V>)
    ensures forall k :: k in r <==> k in m && forall j | 0 <= j < |keys| :: !StartsWith(k, keys[j] + SEP)
    ensures forall k | k in r :: r[k] == m[k]
  {
    map k | k in m && (forall j | 0 <= j < |keys| :: !StartsWith(k, keys[j] + SEP)) :: m[k]
  }

  /** Invalidating one more key extends the set of keys invalidated. */
  lemma WithoutKeysStep<V>(m: map<string, V>, keys: seq<string>, x: string)
    ensures WithoutPrefix(WithoutKeys(m, keys), x + SEP) == WithoutKeys(m, keys + [x])
  {
    var a := WithoutPrefix(WithoutKeys(m, keys), x + SEP);
    var b := WithoutKeys(m, keys + [x]);
    forall k ensures k in a <==> k in b {
      if k in m {
        var ks := keys + [x];
        if forall j | 0 <= j < |ks| :: !StartsWith(k, ks[j] + SEP) {
          assert ks[|keys|] == x;
          forall j | 0 <= j < |keys| ensures !StartsWith(k, keys[j] + SEP) {
            assert ks[j] == keys[j];
          }
        } else {
          var j :| 0 <= j < |ks| && StartsWith(k, ks[j] + SEP);
          if j < |keys| { assert ks[j] == keys[j]; }
        }
      }
    }
    assert a == b;
  }

  /** One more key of `kDelete` handled: it joins the keys removed, invalidated and announced. */
  lemma DeleteStep<V, W, T>(raw: map<string, V>, tasks: map<string, W>, typed: map<string, T>, done: seq<string>, x: string, g: Gson)
    ensures raw - (set k | k in done) - {x} == raw - (set k | k in done + [x])
    ensures tasks - (set k | k in done) - {x} == tasks - (set k | k in done + [x])
    ensures WithoutPrefix(WithoutKeys(typed, done), x + SEP) == WithoutKeys(typed, done + [x])
    ensures Announcements(done, g) + [Server.Message(INVALIDATE_CHANNEL, g.EncodeString(x))] == Announcements(done + [x], g)
  {
    assert (set k | k in done + [x]) == (set k | k in done) + {x};
    WithoutKeysStep(typed, done, x);
  }

  /** Some delivery of `ds` went to `s`. */
  ghost predicate Reached(ds: seq<Delivery>, s: Subscriber)
  {
    exists j | 0 <= j < |ds| :: ds[j].to == s
  }

  /** One more delivery reaches `s` exactly when an earlier one did or this one does. */
  lemma ReachedStep(ds: seq<Delivery>, d: Delivery, s: Subscriber)
    ensures Reached(ds + [d], s) <==> Reached(ds, s) || d.to == s
  {
    if Reached(ds, s) {
      var j :| 0 <= j < |ds| && ds[j].to == s;
      assert (ds + [d])[j] == ds[j];
    }
    if d.to == s {
      assert (ds + [d])[|ds|] == d;
    }
  }

  /** Deliveries made one per subscriber reach `s` exactly when `s` is subscribed. */
  lemma ReachedIffIn(ds: seq<Delivery>, subs: seq<Subscriber>, s: Subscriber)
    requires |ds| == |subs| && forall i | 0 <= i < |subs| :: ds[i].to == subs[i]
    ensures Reached(ds, s) <==> s in subs
  {
    if s in subs {
      var i :| 0 <= i < |subs| && subs[i] == s;
      assert ds[i].to == s;
    }
  }

  /** The invalidation messages `kDelete(keys)` publishes, one per key in order. */
  function Announcements(keys: seq<string>, g: Gson): (r: seq<Server.Message>)
    ensures |r| == |keys|
    ensures forall i | 0 <= i < |keys| :: r[i] == Server.Message(INVALIDATE_CHANNEL, g.EncodeString(keys[i]))
  {
    seq(|keys|, i requires 0 <= i < |keys| => Server.Message(INVALIDATE_CHANNEL, g.EncodeString(keys[i])))
  }

  /** The base keys of the hash fields `hDelete` invalidates. */
  function FieldKeys(key: string, hkJsons: seq<string>): (r: seq<string>)
    ensures |r| == |hkJsons| && forall i | 0 <= i < |r| :: r[i] == key + SEP + hkJsons[i]
  {
    seq(|hkJsons|, i requires 0 <= i < |hkJsons| => FieldKey(key, hkJsons[i]))
  }

  /** What `lPop`/`rPop` return for a popped text: `Optional.ofNullable(gson.fromJson(json))`. */
  function PoppedValue(d: Decoded): (r: Result<Option<Obj>>)
    ensures r.Err? <==> d.Threw?
    ensures r.Ok? ==> r.value == d.Ref()
  {
    if d.Threw? then Err(DecodeFailed) else Ok(d.Ref())
  }

  class LocalSedisCache {
    const storage: CacheStorage
    const pubsub: SedisPubSubManager
    const manager: CacheInvalidationManager
    const redis: Server.Redis
    const gson: Gson

    ghost predicate Valid()
      reads this, manager, pubsub
    {
      manager.storage == storage && manager.pubsub == pubsub &&
      pubsub.redis == redis && pubsub.gson == gson &&
      manager.Valid() && pubsub.Valid()
    }

    /** The two local tiers as a value. */
    function Local(): Tiers
      reads this, storage
    {
      Tiers(storage.raw, storage.typed)
    }

    constructor(redis: Server.Redis, gson: Gson)
      ensures Valid() && this.redis == redis && this.gson == gson
      ensures Local() == Tiers(map[], map[])
      ensures pubsub.subscribers == map[] && !pubsub.IsRunning() && manager.tasks == map[]
      ensures fresh(storage) && fresh(pubsub) && fresh(manager)
    {
      var s := new CacheStorage();
      var p := new SedisPubSubManager(redis, gson);
      var m := new CacheInvalidationManager(s, p);
      this.redis := redis;
      this.gson := gson;
      storage, pubsub, manager := s, p, m;
    }

    /** Subscribes the two invalidation handlers and makes sure the listener runs. */
    method OnInstall()
      requires Valid()
      modifies pubsub
      ensures Valid() && pubsub.IsRunning()
      ensures pubsub.subscribers ==
                AfterSubscribe(AfterSubscribe(old(pubsub.subscribers), INVALIDATE_CHANNEL, InvalidateSubscriber),
                               CLEAR_CHANNEL, ClearSubscriber)
    {
      manager.Initialize();
      pubsub.Start();
    }

    /** Removes the handlers, cancels the checks, stops the listener and empties the store. */
    method OnUninstall()
      requires Valid()
      modifies pubsub, manager, storage
      ensures Valid() && !pubsub.threadPresent && !pubsub.IsRunning()
      ensures pubsub.subscribers ==
                AfterUnsubscribe(AfterUnsubscribe(old(pubsub.subscribers), INVALIDATE_CHANNEL, InvalidateSubscriber),
                                 CLEAR_CHANNEL, ClearSubscriber)
      ensures manager.tasks == map[] && manager.pending == map[]
      ensures Local() == Tiers(map[], map[])
    {
      manager.Shutdown();
      pubsub.Stop();
      storage.Clear();
    }

    /** Empties the local store and cancels every expiry check. */
    method Clear()
      requires Valid()
      modifies storage, manager
      ensures Valid()
      ensures Local() == Tiers(map[], map[])
      ensures manager.tasks == map[] && manager.pending == map[]
    {
      storage.Clear();
      manager.CancelAllExpirationTasks();
    }

    /** The read-through lookup: typed slot, then raw slot, then the store. */
    method GetFromCacheOrRedis(key: string, cls: ClassName, getter: Getter) returns (r: Result<Option<Cached>>)
      modifies storage
      ensures Read(r, Local()) == ReadThrough(old(Local()), key, cls, Fetch(redis.data, getter), gson)
    {
      var tk := BuildTypedKey(key, cls);
      var cached := storage.GetTyped(tk);
      if cached.Some? {
        return Ok(Some(cached.value));
      }
      var rawJson := storage.GetRaw(key);
      if rawJson.Some? {
        var d := gson.fromJson(rawJson.value, cls);
        if d.Threw? {
          return Err(DecodeFailed);
        } else if d.Null? {
          return Err(NullValue);
        }
        storage.PutTyped(tk, Single(d.obj));
        return Ok(Some(Single(d.obj)));
      }
      var fetched: Result<Option<string>>;
      match getter {
        case ValueGetter(k) =>
          fetched := redis.Get(k);
        case FieldGetter(k, f) =>
          fetched := redis.HGet(k, f);
      }
      if fetched.Err? {
        return Err(fetched.error);
      }
      if fetched.value.None? {
        return Ok(None);
      }
      var json := fetched.value.value;
      var d := gson.fromJson(json, cls);
      if d.Threw? {
        return Err(DecodeFailed);
      }
      storage.PutRaw(key, json);
      if d.Null? {
        return Err(NullValue);
      }
      storage.PutTyped(tk, Single(d.obj));
      r := Ok(Some(Single(d.obj)));
    }

    method KGet(key: string, cls: ClassName) returns (r: Result<Option<Cached>>)
      modifies storage
      ensures Read(r, Local()) == ReadThrough(old(Local()), key, cls, Server.StringAt(redis.data, key), gson)
    {
      r := GetFromCacheOrRedis(key, cls, ValueGetter(key));
    }

    /** Writes the store, fills both tiers with the value and cancels the key's expiry check. */
    method KSet(key: string, v: Obj)
      requires Valid()
      modifies redis, storage, manager
      ensures Valid()
      ensures redis.data == old(redis.data)[key := Server.Str(gson.toJson(v))]
      ensures redis.expiring == old(redis.expiring) - {key} && redis.published == old(redis.published)
      ensures Local() == Tiers(old(storage.raw)[key := gson.toJson(v)],
                               old(storage.typed)[BuildTypedKey(key, v.cls) := Single(v)])
      ensures manager.tasks == old(manager.tasks) - {key}
      ensures manager.pending == Cancelled(old(manager.tasks), old(manager.pending), key)
    {
      var json := gson.toJson(v);
      redis.Set(key, json);
      storage.PutRaw(key, json);
      storage.PutTyped(BuildTypedKey(key, v.cls), Single(v));
      manager.CancelExpirationTask(key);
    }

    /** `kSet` with a time to live: SETEX refuses a non-positive one before anything local happens. */
    method KSetEx(key: string, v: Obj, ttl: int) returns (r: Outcome)
      requires Valid()
      modifies redis, storage, manager
      ensures Valid()
      ensures r == if ttl > 0 then Pass else Fail(InvalidExpireTime)
      ensures redis.published == old(redis.published)
      ensures r.Fail? ==>
                redis.data == old(redis.data) && redis.expiring == old(redis.expiring) &&
                Local() == old(Local()) && manager.tasks == old(manager.tasks) && manager.pending == old(manager.pending)
      ensures r.Pass? ==>
                redis.data == old(redis.data)[key := Server.Str(gson.toJson(v))] &&
                redis.expiring == old(redis.expiring) + {key} &&
                Local() == Tiers(old(storage.raw)[key := gson.toJson(v)],
                                 old(storage.typed)[BuildTypedKey(key, v.cls) := Single(v)]) &&
                key in manager.tasks && manager.pending[manager.tasks[key]] == Task(key, ttl) &&
                manager.tasks[key] !in old(manager.pending) &&
                manager.tasks - {key} == old(manager.tasks) - {key} &&
                manager.pending - {manager.tasks[key]} == Cancelled(old(manager.tasks), old(manager.pending), key)
    {
      var json := gson.toJson(v);
      r := redis.SetEx(key, ttl, json);
      if r.Fail? {
        return;
      }
      storage.PutRaw(key, json);
      storage.PutTyped(BuildTypedKey(key, v.cls), Single(v));
      ScheduleExpirationCheck(key, ttl);
    }

    /** Deletes the keys, then invalidates and announces each one in order. */
    method KDelete(keys: seq<string>) returns (r: Outcome)
      requires Valid()
      modifies redis, storage, manager
      ensures Valid()
      ensures r == if |keys| > 0 then Pass else Fail(WrongArity)
      ensures redis.data == if r.Pass? then old(redis.data) - set k | k in keys else old(redis.data)
      ensures redis.expiring == if r.Pass? then old(redis.expiring) - set k | k in keys else old(redis.expiring)
      ensures r.Fail? ==>
                Local() == old(Local()) && manager.tasks == old(manager.tasks) && redis.published == old(redis.published)
      ensures r.Pass? ==>
                storage.raw == old(storage.raw) - (set k | k in keys) &&
                storage.typed == WithoutKeys(old(storage.typed), keys) &&
                manager.tasks == old(manager.tasks) - (set k | k in keys) &&
                redis.published == old(redis.published) + Announcements(keys, gson)
    {
      r := redis.Del(keys);
      if r.Fail? {
        return;
      }
      for i := 0 to |keys|
        invariant Valid()
        invariant redis.data == old(redis.data) - set k | k in keys
        invariant redis.expiring == old(redis.expiring) - set k | k in keys
        invariant storage.raw == old(storage.raw) - set k | k in keys[..i]
        invariant storage.typed == WithoutKeys(old(storage.typed), keys[..i])
        invariant manager.tasks == old(manager.tasks) - set k | k in keys[..i]
        invariant redis.published == old(redis.published) + Announcements(keys[..i], gson)
      {
        manager.InvalidateKey(keys[i]);
        manager.PublishInvalidation(keys[i]);
        DeleteStep(old(storage.raw), old(manager.tasks), old(storage.typed), keys[..i], keys[i], gson);
        assert keys[..i + 1] == keys[..i] + [keys[i]];
      }
      assert keys[..|keys|] == keys;
    }

    method KExists(key: string) returns (r: bool)
      ensures r <==> key in redis.data
    {
      r := redis.Exists(key);
    }

    /** EXPIRE, then a fresh expiry check for the key whatever the store replied. */
    method KExpire(key: string, seconds: int)
      requires Valid()
      modifies redis, manager
      ensures Valid()
      ensures redis.data == if key in old(redis.data) && seconds <= 0 then old(redis.data) - {key} else old(redis.data)
      ensures redis.expiring ==
                if key !in old(redis.data) then old(redis.expiring)
                else if seconds <= 0 then old(redis.expiring) - {key}
                else old(redis.expiring) + {key}
      ensures redis.published == old(redis.published)
      ensures key in manager.tasks && manager.pending[manager.tasks[key]] == Task(key, seconds)
      ensures manager.tasks[key] !in old(manager.pending)
      ensures manager.tasks - {key} == old(manager.tasks) - {key}
      ensures manager.pending - {manager.tasks[key]} == Cancelled(old(manager.tasks), old(manager.pending), key)
    {
      redis.Expire(key, seconds);
      ScheduleExpirationCheck(key, seconds);
    }

    /** Replaces the key's expiry check; when it runs, `manager.Fire` performs it. */
    method ScheduleExpirationCheck(key: string, seconds: int)
      requires Valid()
      modifies manager
      ensures Valid()
      ensures key in manager.tasks && manager.pending[manager.tasks[key]] == Task(key, seconds)
      ensures manager.tasks[key] !in old(manager.pending)
      ensures manager.tasks - {key} == old(manager.tasks) - {key}
      ensures manager.pending - {manager.tasks[key]} == Cancelled(old(manager.tasks), old(manager.pending), key)
    {
      manager.ScheduleExpiration(key, seconds);
    }

    /** HSET of the encoded field and value; the local store is left alone. */
    method HSet(key: string, hk: Obj, v: Obj) returns (r: Outcome)
      modifies redis
      ensures var c := Server.HSetCmd(old(redis.data), key, gson.toJson(hk), gson.toJson(v));
              r == Server.Status(c) && redis.data == Server.Applied(old(redis.data), c)
      ensures redis.expiring == old(redis.expiring) && redis.published == old(redis.published)
      ensures Local() == old(Local())
    {
      r := redis.HSet(key, gson.toJson(hk), gson.toJson(v));
    }

    /**
     * `hSet` with the invalidation it evidently lacks: HSET, then
     * `invalidateKey(key:hkJson)`, as `hDelete` does for each field.
     */
    method HSetInvalidating(key: string, hk: Obj, v: Obj) returns (r: Outcome)
      modifies redis, storage
      ensures var c := Server.HSetCmd(old(redis.data), key, gson.toJson(hk), gson.toJson(v));
              r == Server.Status(c) && redis.data == Server.Applied(old(redis.data), c)
      ensures redis.expiring == old(redis.expiring) && redis.published == old(redis.published)
      ensures Local() == if r.Pass? then Invalidated(old(Local()), FieldKey(key, gson.toJson(hk))) else old(Local())
    {
      var hkJson := gson.toJson(hk);
      r := redis.HSet(key, hkJson, gson.toJson(v));
      if r.Pass? {
        storage.InvalidateKey(FieldKey(key, hkJson));
      }
    }

    /** A read-through of the field whose base key is `key:hkJson`. */
    method HGet(key: string, hk: Obj, cls: ClassName) returns (r: Result<Option<Cached>>)
      modifies storage
      ensures var hkJson := gson.toJson(hk);
              Read(r, Local()) == ReadThrough(old(Local()), FieldKey(key, hkJson), cls, Server.FieldAt(redis.data, key, hkJson), gson)
    {
      var hkJson := gson.toJson(hk);
      r := GetFromCacheOrRedis(FieldKey(key, hkJson), cls, FieldGetter(key, hkJson));
    }

    /** HDEL, then `invalidateKey(key:hkJson)` for each field. */
    method HDelete(key: string, hks: seq<Obj>) returns (r: Outcome)
      modifies redis, storage
      ensures var c := Server.HDelCmd(old(redis.data), key, Encoded(gson, hks));
              r == Server.Status(c) && redis.data == Server.Applied(old(redis.data), c)
      ensures redis.expiring == Server.KeepTtl(old(redis.expiring), old(redis.data), redis.data) && redis.published == old(redis.published)
      ensures r.Fail? ==> Local() == old(Local())
      ensures r.Pass? ==>
                var fks := FieldKeys(key, Encoded(gson, hks));
                storage.raw == old(storage.raw) - (set k | k in fks) &&
                storage.typed == WithoutKeys(old(storage.typed), fks)
    {
      var jsons := Encoded(gson, hks);
      r := redis.HDel(key, jsons);
      if r.Fail? {
        return;
      }
      ghost var fks := FieldKeys(key, jsons);
      label deleted:
      for i := 0 to |jsons|
        invariant unchanged@deleted(redis)
        invariant storage.raw == old(storage.raw) - set k | k in fks[..i]
        invariant storage.typed == WithoutKeys(old(storage.typed), fks[..i])
      {
        storage.InvalidateKey(FieldKey(key, jsons[i]));
        WithoutKeysStep(old(storage.typed), fks[..i], fks[i]);
        assert fks[..i + 1] == fks[..i] + [fks[i]];
      }
      assert fks[..|fks|] == fks;
    }

    /** SADD of the encoded values; the local store is left alone. */
    method SAdd(key: string, vs: seq<Obj>) returns (r: Outcome)
      modifies redis
      ensures var c := Server.SAddCmd(old(redis.data), key, Encoded(gson, vs));
              r == Server.Status(c) && redis.data == Server.Applied(old(redis.data), c)
      ensures redis.expiring == old(redis.expiring) && redis.published == old(redis.published)
      ensures Local() == old(Local())
    {
      r := redis.SAdd(key, Encoded(gson, vs));
    }

    method SIsMember(key: string, v: Obj) returns (r: Result<bool>)
      ensures Server.SetAt(redis.data, key).Err? ==> r == Err(WrongType)
      ensures Server.SetAt(redis.data, key).Ok? ==> r == Ok(gson.toJson(v) in Server.SetAt(redis.data, key).value)
    {
      r := redis.SIsMember(key, gson.toJson(v));
    }

    /** The set view `key:set:cls`, or the decoded members cached under it. */
    method SMembers(key: string, cls: ClassName) returns (r: Result<set<Option<Obj>>>)
      modifies storage
      ensures Read(r, Local()) == SetViewRead(old(Local()), SetViewKey(key, cls), Server.SetAt(redis.data, key), cls, gson)
    {
      var ck := SetViewKey(key, cls);
      var cached := storage.GetTyped(ck);
      if cached.Some? {
        if cached.value.SetView? {
          return Ok(cached.value.members);
        }
        return Err(ClassCast);
      }
      var members := redis.SMembers(key);
      if members.Err? {
        return Err(members.error);
      }
      var decoded := DecodeSet(members.value, cls, gson);
      if decoded.Err? {
        return Err(decoded.error);
      }
      storage.PutTyped(ck, SetView(decoded.value));
      r := Ok(decoded.value);
    }

    /** SREM, then drop the set views `key:set:`. */
    method SRemove(key: string, vs: seq<Obj>) returns (r: Outcome)
      modifies redis, storage
      ensures var c := Server.SRemCmd(old(redis.data), key, Encoded(gson, vs));
              r == Server.Status(c) && redis.data == Server.Applied(old(redis.data), c)
      ensures redis.expiring == Server.KeepTtl(old(redis.expiring), old(redis.data), redis.data) && redis.published == old(redis.published)
      ensures Local() == if r.Pass? then PrefixInvalidated(old(Local()), key + ":set:") else old(Local())
    {
      r := redis.SRem(key, Encoded(gson, vs));
      if r.Pass? {
        storage.InvalidateByPrefix(key + ":set:");
      }
    }

    method SCard(key: string) returns (r: Result<nat>)
      ensures Server.SetAt(redis.data, key).Err? ==> r == Err(WrongType)
      ensures Server.SetAt(redis.data, key).Ok? ==> r == Ok(|Server.SetAt(redis.data, key).value|)
    {
      r := redis.SCard(key);
    }

    /** ZADD, then drop the sorted-set views `key:zset:`; `rank` stands for the score. */
    method ZAdd(key: string, rank: nat, v: Obj) returns (r: Outcome)
      modifies redis, storage
      ensures var c := Server.ZAddCmd(old(redis.data), key, rank, gson.toJson(v));
              r == Server.Status(c) && redis.data == Server.Applied(old(redis.data), c)
      ensures redis.expiring == old(redis.expiring) && redis.published == old(redis.published)
      ensures Local() == if r.Pass? then PrefixInvalidated(old(Local()), key + ":zset:") else old(Local())
    {
      r := redis.ZAdd(key, rank, gson.toJson(v));
      if r.Pass? {
        storage.InvalidateByPrefix(key + ":zset:");
      }
    }

    /** ZREM, then drop the sorted-set views `key:zset:`. */
    method ZRemove(key: string, vs: seq<Obj>) returns (r: Outcome)
      modifies redis, storage
      ensures var c := Server.ZRemCmd(old(redis.data), key, Encoded(gson, vs));
              r == Server.Status(c) && redis.data == Server.Applied(old(redis.data), c)
      ensures redis.expiring == Server.KeepTtl(old(redis.expiring), old(redis.data), redis.data) && redis.published == old(redis.published)
      ensures Local() == if r.Pass? then PrefixInvalidated(old(Local()), key + ":zset:") else old(Local())
    {
      r := redis.ZRem(key, Encoded(gson, vs));
      if r.Pass? {
        storage.InvalidateByPrefix(key + ":zset:");
      }
    }

    /** A cached range view, or the store's range decoded and cached under `ck`. */
    method CachedRange(ck: string, src: RangeSource, cls: ClassName) returns (r: Result<seq<Option<Obj>>>)
      modifies storage
      ensures Read(r, Local()) == ListViewRead(old(Local()), ck, FetchRange(redis.data, src), cls, gson)
    {
      var cached := storage.GetTyped(ck);
      if cached.Some? {
        if cached.value.ListView? {
          return Ok(cached.value.items);
        }
        return Err(ClassCast);
      }
      var range: Result<seq<string>>;
      match src {
        case ZSetRange(k, s, e, rev) =>
          if rev {
            range := redis.ZRevRange(k, s, e);
          } else {
            range := redis.ZRange(k, s, e);
          }
        case ListRange(k, s, e) =>
          range := redis.LRange(k, s, e);
      }
      if range.Err? {
        return Err(range.error);
      }
      var decoded := DecodeSeq(range.value, cls, gson);
      if decoded.Err? {
        return Err(decoded.error);
      }
      storage.PutTyped(ck, ListView(decoded.value));
      r := Ok(decoded.value);
    }

    method ZRange(key: string, start: int, end: int, cls: ClassName) returns (r: Result<seq<Option<Obj>>>)
      modifies storage
      ensures Read(r, Local()) ==
                ListViewRead(old(Local()), RangeViewKey(key, "zset", "range", start, end, cls),
                             Server.ZRangeAt(redis.data, key, start, end, false), cls, gson)
    {
      r := CachedRange(RangeViewKey(key, "zset", "range", start, end, cls), ZSetRange(key, start, end, false), cls);
    }

    method ZRevRange(key: string, start: int, end: int, cls: ClassName) returns (r: Result<seq<Option<Obj>>>)
      modifies storage
      ensures Read(r, Local()) ==
                ListViewRead(old(Local()), RangeViewKey(key, "zset", "revrange", start, end, cls),
                             Server.ZRangeAt(redis.data, key, start, end, true), cls, gson)
    {
      r := CachedRange(RangeViewKey(key, "zset", "revrange", start, end, cls), ZSetRange(key, start, end, true), cls);
    }

    /** LPUSH, then drop the list views `key:list:`. */
    method LPush(key: string, vs: seq<Obj>) returns (r: Outcome)
      modifies redis, storage
      ensures var c := Server.LPushCmd(old(redis.data), key, Encoded(gson, vs));
              r == Server.Status(c) && redis.data == Server.Applied(old(redis.data), c)
      ensures redis.expiring == old(redis.expiring) && redis.published == old(redis.published)
      ensures Local() == if r.Pass? then PrefixInvalidated(old(Local()), key + ":list:") else old(Local())
    {
      r := redis.LPush(key, Encoded(gson, vs));
      if r.Pass? {
        storage.InvalidateByPrefix(key + ":list:");
      }
    }

    /** RPUSH, then drop the list views `key:list:`. */
    method RPush(key: string, vs: seq<Obj>) returns (r: Outcome)
      modifies redis, storage
      ensures var c := Server.RPushCmd(old(redis.data), key, Encoded(gson, vs));
              r == Server.Status(c) && redis.data == Server.Applied(old(redis.data), c)
      ensures redis.expiring == old(redis.expiring) && redis.published == old(redis.published)
      ensures Local() == if r.Pass? then PrefixInvalidated(old(Local()), key + ":list:") else old(Local())
    {
      r := redis.RPush(key, Encoded(gson, vs));
      if r.Pass? {
        storage.InvalidateByPrefix(key + ":list:");
      }
    }

    /** LPOP (`left`) or RPOP: an element popped drops the list views; an empty list changes nothing local. */
    method Pop(key: string, cls: ClassName, left: bool) returns (r: Result<Option<Obj>>)
      modifies redis, storage
      ensures redis.data == Server.PopData(old(redis.data), key, left)
      ensures redis.expiring == Server.KeepTtl(old(redis.expiring), old(redis.data), redis.data) && redis.published == old(redis.published)
      ensures var reply := Server.PopReply(old(redis.data), key, left);
              if reply.Err? then r == Err(reply.error) && Local() == old(Local())
              else if reply.value.None? then r == Ok(None) && Local() == old(Local())
              else r == PoppedValue(gson.fromJson(reply.value.value, cls)) &&
                   Local() == PrefixInvalidated(old(Local()), key + ":list:")
    {
      var json := redis.Pop(key, left);
      if json.Err? {
        return Err(json.error);
      }
      if json.value.None? {
        return Ok(None);
      }
      storage.InvalidateByPrefix(key + ":list:");
      r := PoppedValue(gson.fromJson(json.value.value, cls));
    }

    method LPop(key: string, cls: ClassName) returns (r: Result<Option<Obj>>)
      modifies redis, storage
      ensures redis.data == Server.PopData(old(redis.data), key, true)
      ensures redis.expiring == Server.KeepTtl(old(redis.expiring), old(redis.data), redis.data) && redis.published == old(redis.published)
      ensures var reply := Server.PopReply(old(redis.data), key, true);
              if reply.Err? then r == Err(reply.error) && Local() == old(Local())
              else if reply.value.None? then r == Ok(None) && Local() == old(Local())
              else r == PoppedValue(gson.fromJson(reply.value.value, cls)) &&
                   Local() == PrefixInvalidated(old(Local()), key + ":list:")
    {
      r := Pop(key, cls, true);
    }

    method RPop(key: string, cls: ClassName) returns (r: Result<Option<Obj>>)
      modifies redis, storage
      ensures redis.data == Server.PopData(old(redis.data), key, false)
      ensures redis.expiring == Server.KeepTtl(old(redis.expiring), old(redis.data), redis.data) && redis.published == old(redis.published)
      ensures var reply := Server.PopReply(old(redis.data), key, false);
              if reply.Err? then r == Err(reply.error) && Local() == old(Local())
              else if reply.value.None? then r == Ok(None) && Local() == old(Local())
              else r == PoppedValue(gson.fromJson(reply.value.value, cls)) &&
                   Local() == PrefixInvalidated(old(Local()), key + ":list:")
    {
      r := Pop(key, cls, false);
    }

    method LRange(key: string, start: int, end: int, cls: ClassName) returns (r: Result<seq<Option<Obj>>>)
      modifies storage
      ensures Read(r, Local()) ==
                ListViewRead(old(Local()), RangeViewKey(key, "list", "range", start, end, cls),
                             Server.LRangeAt(redis.data, key, start, end), cls, gson)
    {
      r := CachedRange(RangeViewKey(key, "list", "range", start, end, cls), ListRange(key, start, end), cls);
    }

    /** LSET, then drop the list views `key:list:`; a refused LSET changes nothing local. */
    method LSet(key: string, index: int, v: Obj) returns (r: Outcome)
      modifies redis, storage
      ensures var c := Server.LSetCmd(old(redis.data), key, index, gson.toJson(v));
              r == Server.Status(c) && redis.data == Server.Applied(old(redis.data), c)
      ensures redis.expiring == old(redis.expiring) && redis.published == old(redis.published)
      ensures Local() == if r.Pass? then PrefixInvalidated(old(Local()), key + ":list:") else old(Local())
    {
      r := redis.LSet(key, index, gson.toJson(v));
      if r.Pass? {
        storage.InvalidateByPrefix(key + ":list:");
      }
    }

    /** The index view `key:list:index:i:cls`, or the store's element decoded and cached. */
    method LIndex(key: string, index: int, cls: ClassName) returns (r: Result<Option<Obj>>)
      modifies storage
      ensures Read(r, Local()) ==
                IndexRead(old(Local()), IndexViewKey(key, index, cls), Server.LIndexAt(redis.data, key, index), cls, gson)
    {
      var ck := IndexViewKey(key, index, cls);
      var cached := storage.GetTyped(ck);
      if cached.Some? {
        if cached.value.Single? {
          return Ok(Some(cached.value.obj));
        }
        return Err(ClassCast);
      }
      var json := redis.LIndex(key, index);
      if json.Err? {
        return Err(json.error);
      }
      if json.value.None? {
        return Ok(None);
      }
      var d := gson.fromJson(json.value.value, cls);
      if d.Threw? {
        return Err(DecodeFailed);
      } else if d.Null? {
        return Err(NullValue);
      }
      storage.PutTyped(ck, Single(d.obj));
      r := Ok(Some(d.obj));
    }

    method Publish(channel: string, message: Obj)
      requires Valid()
      modifies redis
      ensures redis.published == old(redis.published) + [Server.Message(channel, gson.toJson(message))]
      ensures redis.data == old(redis.data) && redis.expiring == old(redis.expiring)
    {
      pubsub.Publish(channel, message);
    }

    method Subscribe(channel: string, client: nat)
      requires Valid()
      modifies pubsub
      ensures Valid()
      ensures pubsub.subscribers == AfterSubscribe(old(pubsub.subscribers), channel, ClientSubscriber(client))
    {
      pubsub.Subscribe(channel, ClientSubscriber(client));
    }

    method Unsubscribe(channel: string, client: nat)
      requires Valid()
      modifies pubsub
      ensures Valid()
      ensures pubsub.subscribers == AfterUnsubscribe(old(pubsub.subscribers), channel, ClientSubscriber(client))
    {
      pubsub.Unsubscribe(channel, ClientSubscriber(client));
    }

    /**
     * A message arriving on this node: the listener calls each subscriber
     * of the channel and the two handlers act on the local store. Whatever
     * the order, a clear handler leaves the store empty, and otherwise an
     * invalidation handler drops the payload taken as a key.
     */
    method ReceiveMessage(channel: string, message: string, clientThrows: nat -> bool) returns (ds: seq<Delivery>)
      requires Valid()
      modifies manager, storage
      ensures Valid()
      ensures var subs := Lookup(pubsub.subscribers, channel).GetOr([]);
              |ds| == |subs| && (forall i | 0 <= i < |subs| :: ds[i].to == subs[i] && ds[i].message == message) &&
              (ClearSubscriber in subs ==> Local() == Tiers(map[], map[])) &&
              (ClearSubscriber !in subs && InvalidateSubscriber in subs ==> Local() == Invalidated(old(Local()), message)) &&
              (ClearSubscriber !in subs && InvalidateSubscriber !in subs ==> Local() == old(Local())) &&
              manager.tasks == if InvalidateSubscriber in subs then old(manager.tasks) - {message} else old(manager.tasks)
    {
      var listener := new SedisPubSubListener(pubsub);
      ds := listener.OnMessage(channel, message, (s: Subscriber) => s.ClientSubscriber? && clientThrows(s.id));
      ghost var cleared := false;
      ghost var invalidated := false;
      for i := 0 to |ds|
        invariant Valid()
        invariant cleared <==> Reached(ds[..i], ClearSubscriber)
        invariant invalidated <==> Reached(ds[..i], InvalidateSubscriber)
        invariant cleared ==> Local() == Tiers(map[], map[])
        invariant !cleared && invalidated ==> Local() == Invalidated(old(Local()), message)
        invariant !cleared && !invalidated ==> Local() == old(Local())
        invariant manager.tasks == if invalidated then old(manager.tasks) - {message} else old(manager.tasks)
      {
        ReachedStep(ds[..i], ds[i], ClearSubscriber);
        ReachedStep(ds[..i], ds[i], InvalidateSubscriber);
        assert ds[..i + 1] == ds[..i] + [ds[i]];
        match ds[i].to {
          case InvalidateSubscriber =>
            manager.OnInvalidateMessage(message);
            WithoutPrefixIdempotent(old(storage.typed), message + SEP);
            invalidated := true;
          case ClearSubscriber =>
            manager.OnClearMessage();
            cleared := true;
          case ClientSubscriber(_) =>
        }
      }
      ghost var subs := Lookup(pubsub.subscribers, channel).GetOr([]);
      assert ds[..|ds|] == ds;
      ReachedIffIn(ds, subs, ClearSubscriber);
      ReachedIffIn(ds, subs, InvalidateSubscriber);
    }
  }

  /** A value written with `kSet` is read back by `kGet` from the local tiers. */
  method KSetThenKGet(c: LocalSedisCache, key: string, v: Obj) returns (r: Result<Option<Cached>>)
    requires c.Valid()
    modifies c.redis, c.storage, c.manager
    ensures c.Valid() && r == Ok(Some(Single(v)))
  {
    c.KSet(key, v);
    ReadAfterWriteHits(old(c.Local()), key, c.gson.toJson(v), v, Server.StringAt(c.redis.data, key), c.gson);
    r := c.KGet(key, v.cls);
  }

  /**
   * As written, `hSet` keeps a field that `hGet` has read through: the next
   * `hGet` returns the old value although the store now holds the new one.
   */
  method HSetThenHGetIsStale(c: LocalSedisCache, key: string, hk: Obj, v: Obj, cls: ClassName)
    returns (before: Result<Option<Cached>>, after: Result<Option<Cached>>)
    modifies c.redis, c.storage
    ensures before.Ok? && before.value.Some? ==> after == before
    ensures before.Ok? && before.value.Some? && Server.HashAt(old(c.redis.data), key).Ok? ==>
              Server.FieldAt(c.redis.data, key, c.gson.toJson(hk)) == Ok(Some(c.gson.toJson(v)))
    ensures forall o | before == Ok(Some(Single(o))) && o != v :: after != Ok(Some(Single(v)))
  {
    var hkJson := c.gson.toJson(hk);
    before := c.HGet(key, hk, cls);
    var o := c.HSet(key, hk, v);
    if before.Ok? && before.value.Some? {
      ReadThroughRepeats(old(c.Local()), FieldKey(key, hkJson), cls, Server.FieldAt(old(c.redis.data), key, hkJson),
                         Server.FieldAt(c.redis.data, key, hkJson), c.gson);
    }
    after := c.HGet(key, hk, cls);
  }

  /** With the invalidating `hSet`, the next `hGet` decodes the value just written. */
  method HSetInvalidatingThenHGet(c: LocalSedisCache, key: string, hk: Obj, v: Obj, cls: ClassName)
    returns (r: Result<Option<Cached>>)
    modifies c.redis, c.storage
    ensures Server.HashAt(old(c.redis.data), key).Ok? ==> r == FromStore(Ok(Some(c.gson.toJson(v))), cls, c.gson)
    ensures Server.HashAt(old(c.redis.data), key).Ok? && c.gson.fromJson(c.gson.toJson(v), cls) == Parsed(v) ==>
              r == Ok(Some(Single(v)))
  {
    var hkJson := c.gson.toJson(hk);
    var o := c.HSetInvalidating(key, hk, v);
    ReadAfterInvalidationAsksStore(old(c.Local()), FieldKey(key, hkJson), cls, Server.FieldAt(c.redis.data, key, hkJson), c.gson);
    r := c.HGet(key, hk, cls);
  }

  /** After `kDelete([key])` neither tier nor the store has the key, so `kGet` finds nothing. */
  method KDeleteThenKGet(c: LocalSedisCache, key: string, cls: ClassName) returns (r: Result<Option<Cached>>)
    requires c.Valid()
    modifies c.redis, c.storage, c.manager
    ensures c.Valid() && r == Ok(None)
  {
    var d := c.KDelete([key]);
    assert BuildTypedKey(key, cls) !in c.storage.typed by {
      assert [key][0] == key;
      TypedKeyCoveredByKey(old(c.storage.typed), key, cls);
    }
    r := c.KGet(key, cls);
  }

  /** A set view read after a successful `sRemove` is rebuilt from the store's members. */
  method SRemoveThenSMembers(c: LocalSedisCache, key: string, vs: seq<Obj>, cls: ClassName) returns (r: Result<set<Option<Obj>>>)
    requires c.Valid()
    modifies c.redis, c.storage
    ensures var after := Server.Applied(old(c.redis.data), Server.SRemCmd(old(c.redis.data), key, Encoded(c.gson, vs)));
            var members := Server.SetAt(after, key);
            Server.Status(Server.SRemCmd(old(c.redis.data), key, Encoded(c.gson, vs))).Pass? ==>
              r == if members.Err? then Err(members.error) else DecodeSet(members.value, cls, c.gson)
  {
    var o := c.SRemove(key, vs);
    SetViewCovered(key, cls);
    if o.Pass? {
      SetViewAfterInvalidation(old(c.Local()), SetViewKey(key, cls), key + ":set:", Server.SetAt(c.redis.data, key), cls, c.gson);
    }
    r := c.SMembers(key, cls);
  }

  /**
   * `sAdd` leaves the local store alone, so a set view cached before it
   * is returned unchanged afterwards, without the added members.
   */
  method SAddKeepsSetView(c: LocalSedisCache, key: string, vs: seq<Obj>, cls: ClassName)
    returns (before: Result<set<Option<Obj>>>, after: Result<set<Option<Obj>>>)
    modifies c.redis, c.storage
    ensures before.Ok? ==> after == before
  {
    before := c.SMembers(key, cls);
    var o := c.SAdd(key, vs);
    if before.Ok? {
      SetViewRepeats(old(c.Local()), SetViewKey(key, cls), Server.SetAt(old(c.redis.data), key), Server.SetAt(c.redis.data, key), cls, c.gson);
    }
    after := c.SMembers(key, cls);
  }
}
