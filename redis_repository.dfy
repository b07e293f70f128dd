/**
 * `RedisRepository`: objects of one class stored under `Class:mappedKey`
 * through a `local.LocalRedisCache`, with every stored key tracked in the
 * set `Class:keys`. Keys are strings here, as the unchecked cast in
 * `getKeys` assumes.
 */
module Repository {
  import opened Wrappers
  import opened JavaString
  import opened Jvm
  import opened PeerCache
  import opened LocalRedis
  import Server

  /** `repoKey`: the class name, a colon, the mapped key. */
  function RepoKey(cls: ClassName, mapped: string): (r: string)
    ensures StartsWith(r, cls + ":") && |r| == |cls| + 1 + |mapped|
  {
    var r := cls + ":" + mapped;
    assert r[..|cls| + 1] == cls + ":";
    r
  }

  /** `keySetName`: the set tracking the repository's keys. */
  function KeySetName(cls: ClassName): (r: string)
    ensures r == RepoKey(cls, "keys")
  {
    cls + ":keys"
  }

  /** `extractOriginalKey`: the text after the first colon, or all of `s` when that text would be empty. */
  function ExtractOriginalKey(s: string): (r: string)
    ensures ':' !in s ==> r == s
    ensures |r| <= |s|
  {
    var idx := IndexOf(s, ':');
    if idx == -1 || idx + 1 >= |s| then s else s[idx + 1..]
  }

  /** The mapped key comes back out of a repository key, colons in it included, when it is not empty. */
  lemma ExtractAfterRepoKey(cls: ClassName, mapped: string)
    requires ':' !in cls && mapped != []
    ensures ExtractOriginalKey(RepoKey(cls, mapped)) == mapped
  {
    IndexOfAfterPrefix(cls, ':', mapped);
    assert RepoKey(cls, mapped) == cls + [':'] + mapped;
    assert RepoKey(cls, mapped)[|cls| + 1..] == mapped;
  }

  /** An empty mapped key does not come back: `Class:` is returned whole. */
  lemma EmptyMappedKeyKept(cls: ClassName)
    requires ':' !in cls
    ensures ExtractOriginalKey(RepoKey(cls, "")) == cls + ":"
  {
    IndexOfAfterPrefix(cls, ':', "");
    assert RepoKey(cls, "") == cls + [':'] + "";
  }

  /** The key mapped to `keys` is the tracking set's own name, so the SADD that tracks it is refused. */
  lemma KeysKeyCollides(cls: ClassName, data: map<string, Server.Entry>, json: string, rk: string)
    requires rk == RepoKey(cls, "keys")
    ensures rk == KeySetName(cls)
    ensures Server.SAddCmd(data[rk := Server.Str(json)], KeySetName(cls), [rk]) == Err(WrongType)
  {
  }

  /**
   * Iteration looks each tracked key up again through `keyMapper`: the
   * stored key is found when the mapper is idempotent on the mapped key.
   */
  lemma LookupOfTrackedKey(cls: ClassName, keyMapper: string -> string, k: string)
    requires ':' !in cls && keyMapper(k) != [] && keyMapper(keyMapper(k)) == keyMapper(k)
    ensures RepoKey(cls, keyMapper(ExtractOriginalKey(RepoKey(cls, keyMapper(k))))) == RepoKey(cls, keyMapper(k))
  {
    ExtractAfterRepoKey(cls, keyMapper(k));
  }

  /** With a mapper that is not idempotent the iteration looks up a key that was never stored. */
  lemma NonIdempotentMapperMisses()
    ensures var m := (s: string) => "u" + s;
            RepoKey("C", m(ExtractOriginalKey(RepoKey("C", m("1"))))) == "C:uu1" != RepoKey("C", m("1"))
  {
    var m := (s: string) => "u" + s;
    ExtractAfterRepoKey("C", m("1"));
    assert m("1") == "u1";
    assert RepoKey("C", "u1") == "C:u1";
    assert "C:uu1"[3] != "C:u1"[3];
  }

  /** The members of the tracking set, or none when the store refuses the read. */
  function Tracked(data: map<string, Server.Entry>, cls: ClassName): set<string>
  {
    var ms := Server.SetAt(data, KeySetName(cls));
    if ms.Ok? then ms.value else {}
  }

  class RedisRepository {
    const cache: LocalRedisCache
    const cls: ClassName
    const keyMapper: string -> string

    constructor(cache: LocalRedisCache, cls: ClassName, keyMapper: string -> string)
      ensures this.cache == cache && this.cls == cls && this.keyMapper == keyMapper
    {
      this.cache := cache;
      this.cls := cls;
      this.keyMapper := keyMapper;
    }

    /** The repository key of `k`: under `Class:`, and extracted back to the mapped key when that is not empty. */
    function KeyOf(k: string): (r: string)
      ensures StartsWith(r, cls + ":")
      ensures ':' !in cls && keyMapper(k) != [] ==> ExtractOriginalKey(r) == keyMapper(k)
    {
      if ':' !in cls && keyMapper(k) != [] then
        ExtractAfterRepoKey(cls, keyMapper(k));
        RepoKey(cls, keyMapper(k))
      else
        RepoKey(cls, keyMapper(k))
    }

    /** `get`: the cache's `get` of the repository key. */
    method Get(k: string) returns (r: Option<Obj>)
      requires cache.Valid()
      modifies cache
      ensures cache.Valid() && cache.isShutdown == old(cache.isShutdown)
      ensures old(cache.isShutdown) ==> r == None && cache.local == old(cache.local)
      ensures !old(cache.isShutdown) ==>
                GetReply(r, cache.local) ==
                PeerCache.Get(old(cache.local), KeyOf(k), cls, Server.StringAt(cache.redis.data, KeyOf(k)), cache.gson)
    {
      r := cache.Get(KeyOf(k), cls, false);
    }

    /** `set`: the value under the repository key, then the key added to the tracking set. */
    method Set(k: string, v: Obj)
      requires cache.Valid()
      modifies cache, cache.redis
      ensures cache.Valid() && cache.isShutdown == old(cache.isShutdown)
      ensures old(cache.isShutdown) ==>
                cache.local == old(cache.local) && cache.redis.data == old(cache.redis.data) &&
                cache.redis.expiring == old(cache.redis.expiring) && cache.redis.published == old(cache.redis.published)
      ensures !old(cache.isShutdown) ==>
                var written := old(cache.redis.data)[KeyOf(k) := Server.Str(cache.gson.toJson(v))];
                cache.redis.data == Server.Applied(written, Server.SAddCmd(written, KeySetName(cls), [KeyOf(k)])) &&
                cache.redis.expiring == old(cache.redis.expiring) - {KeyOf(k)} &&
                cache.local == old(cache.local)[KeyOf(k) := v] &&
                cache.redis.published == old(cache.redis.published) + [Server.Message(INVALIDATE_CHANNEL, KeyOf(k))]
    {
      cache.Set(KeyOf(k), v, NoFault);
      cache.Add(KeySetName(cls), KeyOf(k), false);
    }

    /** `delete`: the value deleted, then the key removed from the tracking set. */
    method Delete(k: string)
      requires cache.Valid()
      modifies cache, cache.redis
      ensures cache.Valid() && cache.isShutdown == old(cache.isShutdown)
      ensures old(cache.isShutdown) ==>
                cache.local == old(cache.local) && cache.redis.data == old(cache.redis.data) &&
                cache.redis.expiring == old(cache.redis.expiring) && cache.redis.published == old(cache.redis.published)
      ensures !old(cache.isShutdown) ==>
                var deleted := old(cache.redis.data) - {KeyOf(k)};
                cache.redis.data == Server.Applied(deleted, Server.SRemCmd(deleted, KeySetName(cls), [KeyOf(k)])) &&
                cache.redis.expiring == Server.KeepTtl(old(cache.redis.expiring) - {KeyOf(k)}, deleted, cache.redis.data) &&
                cache.local == old(cache.local) - {KeyOf(k)} &&
                cache.redis.published == old(cache.redis.published) + [Server.Message(INVALIDATE_CHANNEL, KeyOf(k))]
    {
      cache.Delete(KeyOf(k), NoFault);
      cache.Rem(KeySetName(cls), KeyOf(k), false);
    }

    /** `getKeys`: the tracked repository keys with their class prefix cut off. */
    method GetKeys() returns (r: set<string>)
      requires cache.Valid()
      ensures cache.isShutdown ==> r == {}
      ensures !cache.isShutdown ==> r == set m | m in Tracked(cache.redis.data, cls) :: ExtractOriginalKey(m)
    {
      var ms := cache.Members(KeySetName(cls), false);
      r := set m | m in ms :: ExtractOriginalKey(m);
    }

    /**
     * `iterator`: `get` of every key from `getKeys`, the empty answers
     * dropped; `asked` is the set of repository keys looked up.
     */
    method Values() returns (vs: seq<Obj>, ghost asked: set<string>)
      requires cache.Valid()
      modifies cache
      ensures cache.Valid() && cache.isShutdown == old(cache.isShutdown)
      ensures old(cache.isShutdown) ==> vs == [] && asked == {}
      ensures !old(cache.isShutdown) ==>
                asked == set m | m in Tracked(cache.redis.data, cls) :: KeyOf(ExtractOriginalKey(m))
      ensures |vs| <= |Tracked(cache.redis.data, cls)|
    {
      var keys := GetKeys();
      vs, asked := LookUpAll(keys);
      if !cache.isShutdown {
        LookupKeys(Tracked(cache.redis.data, cls), keys, cls, keyMapper);
      }
    }

    /** `get` of each key in turn, keeping the present answers. */
    method LookUpAll(keys: set<string>) returns (vs: seq<Obj>, ghost asked: set<string>)
      requires cache.Valid()
      modifies cache
      ensures cache.Valid() && cache.isShutdown == old(cache.isShutdown)
      ensures unchanged(cache.redis)
      ensures asked == RepoKeys(cls, keyMapper, keys)
      ensures |vs| <= |keys|
    {
      vs, asked := [], {};
      var left := keys;
      ghost var done: set<string> := {};
      while left != {}
        invariant cache.Valid() && cache.isShutdown == old(cache.isShutdown)
        invariant done + left == keys && done !! left
        invariant asked == RepoKeys(cls, keyMapper, done)
        invariant |vs| <= |done|
        invariant unchanged(cache.redis)
        decreases left
      {
        var k :| k in left;
        var v := cache.Get(KeyOf(k), cls, false);
        if v.Some? {
          vs := vs + [v.value];
        }
        LookupStep(done, left, keys, k, cls, keyMapper);
        left, done, asked := left - {k}, done + {k}, asked + {KeyOf(k)};
      }
      assert done == keys;
    }
  }

  /** One more key looked up: the split of `keys` moves `k` over and the looked-up keys gain its repository key. */
  lemma LookupStep(done: set<string>, left: set<string>, keys: set<string>, k: string, cls: ClassName, keyMapper: string -> string)
    requires done + left == keys && done !! left && k in left
    ensures (done + {k}) + (left - {k}) == keys && (done + {k}) !! (left - {k})
    ensures |done + {k}| == |done| + 1
    ensures RepoKeys(cls, keyMapper, done + {k}) == RepoKeys(cls, keyMapper, done) + {RepoKey(cls, keyMapper(k))}
  {
    assert k !in done;
  }

  /** The repository keys of a set of keys. */
  function RepoKeys(cls: ClassName, keyMapper: string -> string, ks: set<string>): set<string>
  {
    set k | k in ks :: RepoKey(cls, keyMapper(k))
  }

  /** The keys `getKeys` extracts are no more than the tracked ones, and looking them up maps each tracked key once. */
  lemma LookupKeys(tracked: set<string>, keys: set<string>, cls: ClassName, keyMapper: string -> string)
    requires keys == set m | m in tracked :: ExtractOriginalKey(m)
    ensures |keys| <= |tracked|
    ensures RepoKeys(cls, keyMapper, keys) == set m | m in tracked :: RepoKey(cls, keyMapper(ExtractOriginalKey(m)))
  {
    ExtractedNoMore(tracked);
    var lookup := RepoKeys(cls, keyMapper, keys);
    forall z | z in lookup ensures exists m | m in tracked :: z == RepoKey(cls, keyMapper(ExtractOriginalKey(m))) {
      var k :| k in keys && z == RepoKey(cls, keyMapper(k));
      var m :| m in tracked && k == ExtractOriginalKey(m);
    }
  }

  /** Extracting keys never yields more keys than were tracked. */
  lemma {:induction false} ExtractedNoMore(s: set<string>)
    ensures |set m | m in s :: ExtractOriginalKey(m)| <= |s|
    decreases |s|
  {
    if s != {} {
      var x :| x in s;
      var rest := s - {x};
      ExtractedNoMore(rest);
      assert (set m | m in s :: ExtractOriginalKey(m)) == (set m | m in rest :: ExtractOriginalKey(m)) + {ExtractOriginalKey(x)};
    }
  }

}
