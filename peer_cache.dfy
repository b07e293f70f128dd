/**
 * The single-tier caches that share one Redis store between services
 * (`local.LocalRedisCache` and `MultiServiceRedisCache`): a local map of
 * decoded objects, kept coherent by announcing every write on two
 * channels. Both classes run the same logic, stated here once.
 */
module PeerCache {
  import opened Wrappers
  import opened Jvm
  import Server

  /** Carries the key of a value written or deleted. */
  const INVALIDATE_CHANNEL: string := "cache:invalidate"
  /** Carries `"all"` after the whole database was flushed. */
  const INVALIDATE_ALL_CHANNEL: string := "cache:invalidate:all"
  const ALL_PAYLOAD: string := "all"

  /**
   * Where a write through the pool breaks off: `StoreDown` fails the
   * first command (or the connection), `PublishFails` only the closing
   * announcement. The caller swallows either.
   */
  datatype Fault = NoFault | StoreDown | PublishFails

  /** What `get` returns and the local map it leaves. */
  datatype GetReply = GetReply(value: Option<Obj>, after: map<string, Obj>)

  /**
   * `get(key, cls)` on a running cache, with `fetched` the store's answer
   * to GET (a transport failure or a WRONGTYPE reply is an `Err`). A
   * cached object of the class is returned; one of another class is
   * evicted first. A store text is decoded and cached; a decode that
   * throws or yields null (which the map refuses) caches nothing.
   */
  function Get(local: map<string, Obj>, key: string, cls: ClassName, fetched: Result<Option<string>>, g: Gson): (r: GetReply)
    ensures r.after - {key} == local - {key}
    ensures r.value.None? ==> key !in r.after
    ensures r.value.Some? ==> key in r.after && r.after[key] == r.value.value
  {
    if key in local && IsInstance(local[key], cls) then GetReply(Some(local[key]), local)
    else
      var evicted := local - {key};
      match fetched
      case Err(_) => GetReply(None, evicted)
      case Ok(None) => GetReply(None, evicted)
      case Ok(Some(j)) =>
        match g.fromJson(j, cls)
        case Parsed(o) => GetReply(Some(o), evicted[key := o])
        case _ => GetReply(None, evicted)
  }

  /** A local object of the requested class is returned as is, whatever the store holds. */
  lemma GetLocalHit(local: map<string, Obj>, key: string, cls: ClassName, fetched: Result<Option<string>>, g: Gson)
    requires key in local && IsInstance(local[key], cls)
    ensures Get(local, key, cls, fetched, g) == GetReply(Some(local[key]), local)
  {
  }

  /** A local object of another class is dropped and the answer is the store's, as on an empty map. */
  lemma GetMismatchAsksStore(local: map<string, Obj>, key: string, cls: ClassName, fetched: Result<Option<string>>, g: Gson)
    requires key in local && !IsInstance(local[key], cls)
    ensures Get(local, key, cls, fetched, g).value == Get(map[], key, cls, fetched, g).value
    ensures Get(local, key, cls, fetched, g).after - {key} == local - {key}
  {
  }

  /** A store value decoded to `o` is returned and cached under the key. */
  lemma GetStoreHit(local: map<string, Obj>, key: string, cls: ClassName, json: string, g: Gson)
    requires !(key in local && IsInstance(local[key], cls))
    requires g.fromJson(json, cls).Parsed?
    ensures var o := g.fromJson(json, cls).obj;
            Get(local, key, cls, Ok(Some(json)), g) == GetReply(Some(o), (local - {key})[key := o])
  {
  }

  /** Nothing is cached when the store has nothing, fails, or its text does not decode. */
  lemma GetFailureCachesNothing(local: map<string, Obj>, key: string, cls: ClassName, fetched: Result<Option<string>>, g: Gson)
    requires !(key in local && IsInstance(local[key], cls))
    requires fetched.Err? || fetched == Ok(None) || !g.fromJson(fetched.value.value, cls).Parsed?
    ensures Get(local, key, cls, fetched, g) == GetReply(None, local - {key})
  {
  }

  /**
   * Once `get` has returned an object of the requested class, the next
   * `get` returns it again from the local map whatever the store says.
   */
  lemma {:induction false} GetRepeats(local: map<string, Obj>, key: string, cls: ClassName, f1: Result<Option<string>>, f2: Result<Option<string>>, g: Gson)
    requires var first := Get(local, key, cls, f1, g);
             first.value.Some? && IsInstance(first.value.value, cls)
    ensures var first := Get(local, key, cls, f1, g);
            Get(first.after, key, cls, f2, g) == first
  {
    var first := Get(local, key, cls, f1, g);
    GetLocalHit(first.after, key, cls, f2, g);
  }

  /** The listener's `onMessage`: evict the payload as a key, clear everything, or ignore the channel. */
  function Routed(local: map<string, Obj>, channel: string, message: string): (r: map<string, Obj>)
    ensures r.Keys <= local.Keys && forall k | k in r :: r[k] == local[k]
  {
    if channel == INVALIDATE_CHANNEL then local - {message}
    else if channel == INVALIDATE_ALL_CHANNEL then map[]
    else local
  }

  /** Only the two cache channels change the local map. */
  lemma RoutedOtherChannel(local: map<string, Obj>, channel: string, message: string)
    requires channel != INVALIDATE_CHANNEL && channel != INVALIDATE_ALL_CHANNEL
    ensures Routed(local, channel, message) == local
  {
  }

  /**
   * Every peer receiving the announcement of `set(key, …)` or
   * `delete(key)` drops exactly `key`: the raw key is published, so the
   * evicted key is the written one.
   */
  lemma AnnouncementEvictsKey(local: map<string, Obj>, key: string)
    ensures Routed(local, INVALIDATE_CHANNEL, key) == local - {key}
    ensures key !in Routed(local, INVALIDATE_CHANNEL, key)
  {
  }

  /** The announcement of `deleteAll` empties every peer's map. */
  lemma FlushAnnouncementClears(local: map<string, Obj>)
    ensures Routed(local, INVALIDATE_ALL_CHANNEL, ALL_PAYLOAD) == map[]
  {
  }

  /**
   * The writer subscribes to its own channel: when its own announcement
   * comes back, the object `set` just cached is evicted again and the
   * next `get` asks the store.
   */
  lemma {:induction false} OwnAnnouncementEvictsWrite(local: map<string, Obj>, key: string, v: Obj, cls: ClassName, fetched: Result<Option<string>>, g: Gson)
    ensures var back := Routed(local[key := v], INVALIDATE_CHANNEL, key);
            back == local - {key} &&
            Get(back, key, cls, fetched, g).value == Get(map[], key, cls, fetched, g).value
  {
    var back := Routed(local[key := v], INVALIDATE_CHANNEL, key);
    assert back == local - {key};
    assert key !in back;
  }
}
