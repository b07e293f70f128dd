/** `MultiServiceRedisCache`: the same local map and announcements as `local.LocalRedisCache`, without set operations. */
module MultiService {
  import opened Wrappers
  import opened Jvm
  import opened PeerCache
  import Server

  class MultiServiceRedisCache {
    const redis: Server.Redis
    const gson: Gson
    /** `localCache`: decoded objects by key. */
    var local: map<string, Obj>
    var isShutdown: bool
    /** Whether `jedisPool` is still open. */
    var poolOpen: bool

    /** Shutting down closes the pool and leaves the local map empty for good. */
    ghost predicate Valid()
      reads this
    {
      isShutdown ==> local == map[] && !poolOpen
    }

    /** The constructor over an existing pool; the listener starts subscribed to both channels. */
    constructor(redis: Server.Redis, gson: Gson)
      ensures Valid() && this.redis == redis && this.gson == gson
      ensures local == map[] && !isShutdown && poolOpen
    {
      this.redis := redis;
      this.gson := gson;
      local := map[];
      isShutdown := false;
      poolOpen := true;
    }

    /** `get`; `down` says the connection fails, which the method swallows. */
    method Get(key: string, cls: ClassName, down: bool) returns (r: Option<Obj>)
      requires Valid()
      modifies this
      ensures Valid() && isShutdown == old(isShutdown) && poolOpen == old(poolOpen)
      ensures old(isShutdown) ==> r == None && local == old(local)
      ensures !old(isShutdown) ==>
                GetReply(r, local) ==
                PeerCache.Get(old(local), key, cls, if down then Err(Transport) else Server.StringAt(redis.data, key), gson)
    {
      if isShutdown {
        return None;
      }
      if key in local {
        if IsInstance(local[key], cls) {
          return Some(local[key]);
        }
        local := local - {key};
      }
      if down {
        return None;
      }
      var json := redis.Get(key);
      if json.Err? || json.value.None? {
        return None;
      }
      var d := gson.fromJson(json.value.value, cls);
      if !d.Parsed? {
        return None;
      }
      local := local[key := d.obj];
      r := Some(d.obj);
    }

    /** `set`: the store, then the local map, then the raw key announced. */
    method Set(key: string, v: Obj, fault: Fault)
      requires Valid()
      modifies this, redis
      ensures Valid() && isShutdown == old(isShutdown) && poolOpen == old(poolOpen)
      ensures redis.expiring == if old(isShutdown) || fault == StoreDown then old(redis.expiring) else old(redis.expiring) - {key}
      ensures old(isShutdown) || fault == StoreDown ==>
                local == old(local) && redis.data == old(redis.data) && redis.published == old(redis.published)
      ensures !old(isShutdown) && fault != StoreDown ==>
                redis.data == old(redis.data)[key := Server.Str(gson.toJson(v))] &&
                local == old(local)[key := v] &&
                redis.published == old(redis.published) + (if fault == PublishFails then [] else [Server.Message(INVALIDATE_CHANNEL, key)])
    {
      if isShutdown || fault == StoreDown {
        return;
      }
      redis.Set(key, gson.toJson(v));
      local := local[key := v];
      if fault != PublishFails {
        redis.Publish(INVALIDATE_CHANNEL, key);
      }
    }

    /** `delete`: DEL, the local entry, then the key announced. */
    method Delete(key: string, fault: Fault)
      requires Valid()
      modifies this, redis
      ensures Valid() && isShutdown == old(isShutdown) && poolOpen == old(poolOpen)
      ensures old(isShutdown) || fault == StoreDown ==>
                local == old(local) && redis.data == old(redis.data) &&
                redis.expiring == old(redis.expiring) && redis.published == old(redis.published)
      ensures !old(isShutdown) && fault != StoreDown ==>
                redis.data == old(redis.data) - {key} && redis.expiring == old(redis.expiring) - {key} &&
                local == old(local) - {key} &&
                redis.published == old(redis.published) + (if fault == PublishFails then [] else [Server.Message(INVALIDATE_CHANNEL, key)])
    {
      if isShutdown || fault == StoreDown {
        return;
      }
      var o := redis.Del([key]);
      assert (set k | k in [key]) == {key};
      local := local - {key};
      if fault != PublishFails {
        redis.Publish(INVALIDATE_CHANNEL, key);
      }
    }

    /** `deleteAll`: FLUSHDB, the local map cleared, then `"all"` announced. */
    method DeleteAll(fault: Fault)
      requires Valid()
      modifies this, redis
      ensures Valid() && isShutdown == old(isShutdown) && poolOpen == old(poolOpen)
      ensures old(isShutdown) || fault == StoreDown ==>
                local == old(local) && redis.data == old(redis.data) &&
                redis.expiring == old(redis.expiring) && redis.published == old(redis.published)
      ensures !old(isShutdown) && fault != StoreDown ==>
                redis.data == map[] && redis.expiring == {} && local == map[] &&
                redis.published == old(redis.published) + (if fault == PublishFails then [] else [Server.Message(INVALIDATE_ALL_CHANNEL, ALL_PAYLOAD)])
    {
      if isShutdown || fault == StoreDown {
        return;
      }
      redis.FlushDb();
      local := map[];
      if fault != PublishFails {
        redis.Publish(INVALIDATE_ALL_CHANNEL, ALL_PAYLOAD);
      }
    }

    /** `shutdown`: a second call returns at once; the first closes the pool and clears the map. */
    method Shutdown()
      requires Valid()
      modifies this
      ensures Valid() && isShutdown && !poolOpen && local == map[]
      ensures old(isShutdown) ==> local == old(local) && poolOpen == old(poolOpen)
    {
      if isShutdown {
        return;
      }
      isShutdown := true;
      poolOpen := false;
      local := map[];
    }

    /** The listener's `onMessage` for a message on `channel`. */
    method OnMessage(channel: string, message: string)
      requires Valid()
      modifies this
      ensures Valid() && isShutdown == old(isShutdown) && poolOpen == old(poolOpen)
      ensures local == Routed(old(local), channel, message)
    {
      if channel == INVALIDATE_CHANNEL {
        local := local - {message};
      } else if channel == INVALIDATE_ALL_CHANNEL {
        local := map[];
      }
    }
  }

  /** After `shutdown`, `get` is empty and `set` changes neither the map nor the store. */
  method ShutdownThenUse(c: MultiServiceRedisCache, key: string, v: Obj, cls: ClassName, fault: Fault) returns (r: Option<Obj>)
    requires c.Valid()
    modifies c, c.redis
    ensures r == None && c.local == map[] && c.redis.data == old(c.redis.data) && c.redis.published == old(c.redis.published)
  {
    c.Shutdown();
    c.Set(key, v, fault);
    r := c.Get(key, cls, false);
  }
}
