/**
 * `SedisRepo`: objects of one class stored under `Class:mapKey(k)`
 * through a `LocalSedisCache`, with the repository keys tracked, as
 * JSON strings, in the set `Class:keys`; `reMapKey` turns a stored key
 * back into a key.
 */
module Repo {
  import opened Wrappers
  import opened JavaString
  import opened Jvm
  import opened LocalStore
  import opened ReadPath
  import opened LocalCache
  import Repository
  import Server
  import Invalidation

  /** `reRepoKey`: `reMapKey` of the text after the first colon, or of all of `s` without one. */
  function ReRepoKey(s: string, reMapKey: string -> string): string
  {
    reMapKey(s[IndexOf(s, ':') + 1..])
  }

  /** A repository key maps back to `reMapKey(mapKey(k))`, an empty mapped key included. */
  lemma ReRepoKeyRoundTrip(cls: ClassName, mapped: string, reMapKey: string -> string)
    requires ':' !in cls
    ensures ReRepoKey(Repository.RepoKey(cls, mapped), reMapKey) == reMapKey(mapped)
  {
    IndexOfAfterPrefix(cls, ':', mapped);
    assert Repository.RepoKey(cls, mapped) == cls + [':'] + mapped;
    assert Repository.RepoKey(cls, mapped)[|cls| + 1..] == mapped;
  }

  /** A stored key without a colon is handed to `reMapKey` whole. */
  lemma ReRepoKeyWithoutColon(s: string, reMapKey: string -> string)
    requires ':' !in s
    ensures ReRepoKey(s, reMapKey) == reMapKey(s)
  {
    assert s[0..] == s;
  }

  /**
   * `getKeys` over the decoded members of the tracking set: a null
   * member or one that is not a `String` throws; of two such, the null
   * is reported.
   */
  function KeysOf(members: set<Option<Obj>>, reMapKey: string -> string): (r: Result<set<string>>)
    ensures r.Ok? <==> forall m | m in members :: m.Some? && IsInstance(m.value, STRING_CLASS)
    ensures r.Ok? ==> r.value == set m | m in members && m.Some? :: ReRepoKey(m.value.state, reMapKey)
  {
    if None in members then Err(NullValue)
    else if exists m | m in members :: m.Some? && !IsInstance(m.value, STRING_CLASS) then Err(ClassCast)
    else Ok(set m | m in members && m.Some? :: ReRepoKey(m.value.state, reMapKey))
  }

  lemma ShortDelete(k: string)
    ensures (set x | x in [k]) == {k}
  {
    assert [k][0] == k;
  }

  class SedisRepo {
    const cache: LocalSedisCache
    const cls: ClassName
    const mapKey: string -> string
    const reMapKey: string -> string

    constructor(cache: LocalSedisCache, cls: ClassName, mapKey: string -> string, reMapKey: string -> string)
      ensures this.cache == cache && this.cls == cls && this.mapKey == mapKey && this.reMapKey == reMapKey
    {
      this.cache := cache;
      this.cls := cls;
      this.mapKey := mapKey;
      this.reMapKey := reMapKey;
    }

    /** `key()`: the value class's name, under which every repository key and the tracking set lie. */
    function Key(): (r: ClassName)
      ensures forall k :: StartsWith(KeyOf(k), r + ":")
      ensures StartsWith(KeySetName(), r + ":")
    {
      cls
    }

    /** `repoKey(k)`: under `Class:`, and `reRepoKey` gives back `reMapKey(mapKey(k))`. */
    function KeyOf(k: string): (r: string)
      ensures StartsWith(r, cls + ":")
      ensures ':' !in cls ==> ReRepoKey(r, reMapKey) == reMapKey(mapKey(k))
    {
      if ':' !in cls then
        ReRepoKeyRoundTrip(cls, mapKey(k), reMapKey);
        Repository.RepoKey(cls, mapKey(k))
      else
        Repository.RepoKey(cls, mapKey(k))
    }

    /** `keySetName()`: the repository key of the mapped key `keys`. */
    function KeySetName(): (r: string)
      ensures r == Repository.RepoKey(cls, "keys")
    {
      Repository.KeySetName(cls)
    }

    method Get(k: string) returns (r: Result<Option<Cached>>)
      modifies cache.storage
      ensures Read(r, cache.Local()) ==
                ReadThrough(old(cache.Local()), KeyOf(k), cls, Server.StringAt(cache.redis.data, KeyOf(k)), cache.gson)
    {
      r := cache.KGet(KeyOf(k), cls);
    }

    /** `set`: `kSet` of the repository key, then `sAdd` of that key as a string to the tracking set. */
    method Set(k: string, v: Obj) returns (r: Outcome)
      requires cache.Valid()
      modifies cache.redis, cache.storage, cache.manager
      ensures cache.Valid()
      ensures var written := old(cache.redis.data)[KeyOf(k) := Server.Str(cache.gson.toJson(v))];
              var c := Server.SAddCmd(written, KeySetName(), [cache.gson.EncodeString(KeyOf(k))]);
              r == Server.Status(c) && cache.redis.data == Server.Applied(written, c)
      ensures cache.Local() == Tiers(old(cache.storage.raw)[KeyOf(k) := cache.gson.toJson(v)],
                                     old(cache.storage.typed)[BuildTypedKey(KeyOf(k), v.cls) := Single(v)])
      ensures cache.redis.expiring == old(cache.redis.expiring) - {KeyOf(k)}
      ensures cache.redis.published == old(cache.redis.published)
      ensures cache.manager.tasks == old(cache.manager.tasks) - {KeyOf(k)}
      ensures cache.manager.pending == Invalidation.Cancelled(old(cache.manager.tasks), old(cache.manager.pending), KeyOf(k))
    {
      cache.KSet(KeyOf(k), v);
      assert Encoded(cache.gson, [StringObj(KeyOf(k))]) == [cache.gson.EncodeString(KeyOf(k))];
      r := cache.SAdd(KeySetName(), [StringObj(KeyOf(k))]);
    }

    /** `delete`: `kDelete` of the repository key, then `sRemove` of it from the tracking set. */
    method Delete(k: string) returns (r: Outcome)
      requires cache.Valid()
      modifies cache.redis, cache.storage, cache.manager
      ensures cache.Valid()
      ensures var deleted := old(cache.redis.data) - {KeyOf(k)};
              var c := Server.SRemCmd(deleted, KeySetName(), [cache.gson.EncodeString(KeyOf(k))]);
              r == Server.Status(c) && cache.redis.data == Server.Applied(deleted, c)
      ensures cache.redis.expiring ==
                Server.KeepTtl(old(cache.redis.expiring) - {KeyOf(k)}, old(cache.redis.data) - {KeyOf(k)}, cache.redis.data)
      ensures cache.manager.tasks == old(cache.manager.tasks) - {KeyOf(k)}
      ensures cache.redis.published == old(cache.redis.published) + Announcements([KeyOf(k)], cache.gson)
      ensures var dropped := Tiers(old(cache.storage.raw) - {KeyOf(k)}, WithoutKeys(old(cache.storage.typed), [KeyOf(k)]));
              cache.Local() == if r.Pass? then PrefixInvalidated(dropped, KeySetName() + ":set:") else dropped
    {
      var rk := KeyOf(k);
      ShortDelete(rk);
      var o := cache.KDelete([rk]);
      assert cache.redis.data == old(cache.redis.data) - {rk};
      assert Encoded(cache.gson, [StringObj(rk)]) == [cache.gson.EncodeString(rk)];
      r := cache.SRemove(KeySetName(), [StringObj(rk)]);
    }

    /** `getKeys`: the tracking set's view, read as strings and re-mapped. */
    method GetKeys() returns (r: Result<set<string>>)
      modifies cache.storage
      ensures r == KeysRead(old(cache.Local()))
    {
      var ms := cache.SMembers(KeySetName(), STRING_CLASS);
      if ms.Err? {
        return Err(ms.error);
      }
      r := KeysOf(ms.value, reMapKey);
    }

    /** What `getKeys` answers in state `t` of the local tiers. */
    function KeysRead(t: Tiers): Result<set<string>>
      reads cache.redis
    {
      var m := SetViewRead(t, SetViewKey(KeySetName(), STRING_CLASS),
                           Server.SetAt(cache.redis.data, KeySetName()), STRING_CLASS, cache.gson).value;
      if m.Err? then Err(m.error) else KeysOf(m.value, reMapKey)
    }

    /**
     * `iterator`: `get` of every key from `getKeys`, the empty answers
     * dropped; a throw of either escapes, and there are never more values
     * than keys.
     */
    method Values() returns (r: Result<seq<Cached>>)
      modifies cache.storage
      ensures KeysRead(old(cache.Local())).Err? ==> r == Err(KeysRead(old(cache.Local())).error)
      ensures r.Ok? ==> KeysRead(old(cache.Local())).Ok? && |r.value| <= |KeysRead(old(cache.Local())).value|
    {
      var keys := GetKeys();
      if keys.Err? {
        return Err(keys.error);
      }
      var vs: seq<Cached> := [];
      var left := keys.value;
      while left != {}
        invariant |vs| + |left| <= |keys.value|
        decreases left
      {
        var k :| k in left;
        var v := Get(k);
        if v.Err? {
          return Err(v.error);
        }
        if v.value.Some? {
          vs := vs + [v.value.value];
        }
        left := left - {k};
      }
      r := Ok(vs);
    }
  }
}
