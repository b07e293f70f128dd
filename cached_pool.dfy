/**
 * `CachedSedisPool`: a memo table from requests to the shared results
 * of the store's answers. Writes go straight to the store and, with no
 * invalidation wired in yet, leave the table alone.
 */
module ResultPool {
  import opened Wrappers
  import opened Jvm
  import opened Requests
  import opened Results
  import Server

  class CachedSedisPool {
    const redis: Server.Redis
    const gson: Gson
    /** `cache`: results by request; `ValueEqualsIffSameKey` makes `ValueRequest` equality the map's. */
    var memo: map<ValueRequest, SedisResult>
    /** Whether the connection is still open. */
    var open: bool
    /** The keys read from the store by `kGet`, oldest first. */
    ghost var fetches: seq<string>

    /** Every memoised result answers its own request, was fetched, and holds only decodings of its text. */
    ghost predicate Valid()
      reads this, memo.Values
    {
      forall q | q in memo :: memo[q].request == q && memo[q].gson == gson && memo[q].Valid() && q.key in fetches
    }

    constructor(redis: Server.Redis, gson: Gson)
      ensures Valid() && this.redis == redis && this.gson == gson
      ensures memo == map[] && open && fetches == []
    {
      this.redis := redis;
      this.gson := gson;
      memo := map[];
      open := true;
      fetches := [];
    }

    /**
     * `kGet`: the memoised result for the key, or a new one holding GET's
     * answer; a WRONGTYPE reply escapes and nothing is memoised.
     */
    method KGet(key: string) returns (r: Result<SedisResult>)
      requires Valid()
      modifies this
      ensures Valid() && open == old(open)
      ensures var q := ValueRequest(key);
              if q in old(memo) then r == Ok(old(memo)[q]) && memo == old(memo) && fetches == old(fetches)
              else fetches == old(fetches) + [key] &&
                   match Server.StringAt(redis.data, key)
                   case Err(e) => r == Err(e) && memo == old(memo)
                   case Ok(v) =>
                     r.Ok? && fresh(r.value) && r.value.value == v && r.value.cache == map[] &&
                     memo == old(memo)[q := r.value]
    {
      var q := ValueRequest(key);
      if q in memo {
        return Ok(memo[q]);
      }
      var v := redis.Get(key);
      fetches := fetches + [key];
      if v.Err? {
        return Err(v.error);
      }
      var res := new SedisResult(q, v.value, gson);
      memo := memo[q := res];
      r := Ok(res);
    }

    /** `kSet`: SET of the encoded value; the memo table keeps any stale result. */
    method KSet(key: string, v: Obj)
      modifies redis
      ensures redis.data == old(redis.data)[key := Server.Str(gson.toJson(v))]
      ensures redis.expiring == old(redis.expiring) - {key} && redis.published == old(redis.published)
    {
      redis.Set(key, gson.toJson(v));
    }

    /** `kSet` with a time to live: SETEX, which refuses a non-positive one. */
    method KSetEx(key: string, v: Obj, ttl: int) returns (r: Outcome)
      modifies redis
      ensures r == if ttl > 0 then Pass else Fail(InvalidExpireTime)
      ensures redis.data == if r.Pass? then old(redis.data)[key := Server.Str(gson.toJson(v))] else old(redis.data)
      ensures redis.expiring == if r.Pass? then old(redis.expiring) + {key} else old(redis.expiring)
      ensures redis.published == old(redis.published)
    {
      r := redis.SetEx(key, ttl, gson.toJson(v));
    }

    /** `kDelete`: one DEL per key, in order; no key at all issues no command. */
    method KDelete(keys: seq<string>)
      modifies redis
      ensures redis.data == old(redis.data) - set k | k in keys
      ensures redis.expiring == old(redis.expiring) - set k | k in keys
      ensures redis.published == old(redis.published)
    {
      for i := 0 to |keys|
        invariant redis.data == old(redis.data) - set k | k in keys[..i]
        invariant redis.expiring == old(redis.expiring) - set k | k in keys[..i]
        invariant redis.published == old(redis.published)
      {
        var o := redis.Del([keys[i]]);
        assert keys[..i + 1] == keys[..i] + [keys[i]];
      }
      assert keys[..|keys|] == keys;
    }

    /** `kExists`: true for any memoised key, even one whose result is empty; else EXISTS. */
    method KExists(key: string) returns (r: bool)
      ensures r <==> ValueRequest(key) in memo || key in redis.data
    {
      if ValueRequest(key) in memo {
        return true;
      }
      r := redis.Exists(key);
    }

    method KExpire(key: string, seconds: int)
      modifies redis
      ensures redis.data == if key in old(redis.data) && seconds <= 0 then old(redis.data) - {key} else old(redis.data)
      ensures redis.expiring ==
                if key !in old(redis.data) then old(redis.expiring)
                else if seconds <= 0 then old(redis.expiring) - {key}
                else old(redis.expiring) + {key}
      ensures redis.published == old(redis.published)
    {
      redis.Expire(key, seconds);
    }

    /** `close`: the connection closed and the table emptied. */
    method Close()
      requires Valid()
      modifies this
      ensures Valid() && !open && memo == map[] && fetches == old(fetches)
    {
      open := false;
      memo := map[];
    }

    method Clear()
      requires Valid()
      modifies this
      ensures Valid() && open == old(open) && memo == map[] && fetches == old(fetches)
    {
      memo := map[];
    }

    /** `invalidate`: a memoised result is cleared in place, which every holder sees, and unmapped. */
    method Invalidate(q: ValueRequest)
      requires Valid()
      modifies this, if q in memo then {memo[q]} else {}
      ensures Valid() && open == old(open) && fetches == old(fetches)
      ensures q !in old(memo) ==> memo == old(memo)
      ensures q in old(memo) ==> memo == old(memo) - {q} && !old(memo)[q].IsPresent() && old(memo)[q].cache == map[]
    {
      if q !in memo {
        return;
      }
      var res := memo[q];
      res.Clear();
      memo := memo - {q};
    }
  }

  /** Two `kGet`s of one key share one result and read the store at most once. */
  method KGetTwice(p: CachedSedisPool, key: string) returns (r1: Result<SedisResult>, r2: Result<SedisResult>)
    requires p.Valid()
    modifies p
    ensures r1.Ok? ==> r2 == r1 && |p.fetches| <= |old(p.fetches)| + 1
  {
    r1 := p.KGet(key);
    r2 := p.KGet(key);
  }

  /** A result memoised before `kSet` is served again afterwards, with the old text. */
  method KSetKeepsMemo(p: CachedSedisPool, key: string, v: Obj) returns (r1: Result<SedisResult>, r2: Result<SedisResult>)
    requires p.Valid()
    modifies p, p.redis
    ensures Server.StringAt(p.redis.data, key) == Ok(Some(p.gson.toJson(v)))
    ensures r1.Ok? ==> r2 == r1
    ensures r1.Ok? && ValueRequest(key) in old(p.memo) ==> r2.value.value == old(p.memo[ValueRequest(key)].value)
    ensures r1.Ok? && ValueRequest(key) !in old(p.memo) ==> old(Server.StringAt(p.redis.data, key)) == Ok(r2.value.value)
  {
    r1 := p.KGet(key);
    p.KSet(key, v);
    r2 := p.KGet(key);
  }

  /** A memoised key stays "existing" after `kDelete` removes it from the store. */
  method KExistsAfterKDelete(p: CachedSedisPool, key: string) returns (r: bool)
    requires p.Valid() && ValueRequest(key) in p.memo
    modifies p.redis
    ensures key !in p.redis.data && r
  {
    p.KDelete([key]);
    r := p.KExists(key);
  }
}
