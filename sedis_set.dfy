/**
 * `SedisSet`: a `java.util.Set` view of the Redis set `key`, reached
 * through a `LocalSedisCache` and restricted to values of class `cls`.
 */
module SetEntry {
  import opened Wrappers
  import opened JavaString
  import opened Jvm
  import opened LocalStore
  import opened ReadPath
  import opened LocalCache
  import Server

  /** The elements of `c` that are `cls` instances. */
  function Instances(c: seq<Option<Obj>>, cls: ClassName): (r: set<Obj>)
    ensures forall o :: o in r <==> Some(o) in c && IsInstance(o, cls)
  {
    if |c| == 0 then {}
    else
      var last := c[|c| - 1];
      Instances(c[..|c| - 1], cls) + if last.Some? && IsInstance(last.value, cls) then {last.value} else {}
  }

  /** The JSON texts the cache sends for `os`. */
  function JsonOf(os: set<Obj>, g: Gson): set<string>
  {
    set o | o in os :: g.toJson(o)
  }

  lemma JsonOfAdd(os: set<Obj>, o: Obj, g: Gson)
    ensures JsonOf(os + {o}, g) == JsonOf(os, g) + {g.toJson(o)}
  {
  }

  /** `retainAll`'s victims: the members that are not a `cls` element of the retained collection. */
  function Dropped(members: set<Option<Obj>>, retain: set<Obj>): (r: set<Option<Obj>>)
    ensures r <= members
    ensures forall m | m in members - r :: m.Some? && m.value in retain
    ensures forall m | m in members && (m.None? || m.value !in retain) :: m in r
  {
    set m | m in members && !(m.Some? && m.value in retain)
  }

  /** Those victims that `remove` takes out of the store: the `cls` instances among them. */
  function DroppedInstances(members: set<Option<Obj>>, retain: set<Obj>, cls: ClassName): (r: set<Obj>)
    ensures forall o :: o in r <==> Some(o) in members && IsInstance(o, cls) && o !in retain
  {
    set m | m in members && m.Some? && IsInstance(m.value, cls) && m.value !in retain :: m.value
  }

  lemma DroppedInstancesAdd(done: set<Option<Obj>>, m: Option<Obj>, retain: set<Obj>, cls: ClassName)
    ensures DroppedInstances(done + {m}, retain, cls) ==
              DroppedInstances(done, retain, cls) +
              if m.Some? && IsInstance(m.value, cls) && m.value !in retain then {m.value} else {}
  {
  }

  /** `contains(o)` against the store `data`. */
  function ContainsAt(data: map<string, Server.Entry>, key: string, cls: ClassName, g: Gson, o: Option<Obj>): (r: Result<bool>)
    ensures o.None? || !IsInstance(o.value, cls) ==> r == Ok(false)
    ensures r == Ok(true) ==> Server.SetAt(data, key).Ok? && g.toJson(o.value) in Server.SetAt(data, key).value
  {
    if o.None? || !IsInstance(o.value, cls) then Ok(false)
    else
      match Server.SetAt(data, key)
      case Err(e) => Err(e)
      case Ok(s) => Ok(g.toJson(o.value) in s)
  }

  /** `containsAll`: `allMatch(contains)`, which stops at the first `false` or throw. */
  function AllContained(data: map<string, Server.Entry>, key: string, cls: ClassName, g: Gson, c: seq<Option<Obj>>): Result<bool>
  {
    if |c| == 0 then Ok(true)
    else
      match ContainsAt(data, key, cls, g, c[0])
      case Err(e) => Err(e)
      case Ok(b) => if b then AllContained(data, key, cls, g, c[1..]) else Ok(false)
  }

  /**
   * Over a set in the store, `containsAll` holds exactly when every
   * element is a `cls` instance whose JSON text is a member.
   */
  lemma {:induction false} AllContainedIff(data: map<string, Server.Entry>, key: string, cls: ClassName, g: Gson, c: seq<Option<Obj>>)
    requires Server.SetAt(data, key).Ok?
    ensures AllContained(data, key, cls, g, c).Ok?
    ensures AllContained(data, key, cls, g, c).value <==>
              forall i | 0 <= i < |c| :: c[i].Some? && IsInstance(c[i].value, cls) && g.toJson(c[i].value) in Server.SetAt(data, key).value
  {
    if |c| > 0 {
      AllContainedIff(data, key, cls, g, c[1..]);
      if ContainsAt(data, key, cls, g, c[0]) == Ok(true) {
        forall i | 1 <= i < |c| ensures c[i] == c[1..][i - 1] { }
      }
    }
  }

  /** Removing `x` from a set in the store leaves a set, without `x`, and the other keys alone. */
  lemma SRemOne(data: map<string, Server.Entry>, key: string, x: string)
    requires Server.SetAt(data, key).Ok?
    ensures Server.SRemCmd(data, key, [x]).Ok?
    ensures Server.SetAt(Server.SRemCmd(data, key, [x]).value, key) == Ok(Server.SetAt(data, key).value - {x})
    ensures Server.SRemCmd(data, key, [x]).value - {key} == data - {key}
  {
    assert (set m | m in [x]) == {x};
  }

  lemma EncodedOne(g: Gson, v: Obj)
    ensures Encoded(g, [v]) == [g.toJson(v)]
  {
  }

  class SedisSet {
    const cache: LocalSedisCache
    const key: string
    const cls: ClassName

    constructor(cache: LocalSedisCache, key: string, cls: ClassName)
      ensures this.cache == cache && this.key == key && this.cls == cls
    {
      this.cache := cache;
      this.key := key;
      this.cls := cls;
    }

    /** `add(Collection)`: SADD of all values, and no store call for an empty collection. */
    method AddValues(values: seq<Obj>) returns (r: Outcome)
      modifies cache.redis
      ensures |values| == 0 ==> r == Pass && cache.redis.data == old(cache.redis.data)
      ensures |values| > 0 ==>
                var c := Server.SAddCmd(old(cache.redis.data), key, Encoded(cache.gson, values));
                r == Server.Status(c) && cache.redis.data == Server.Applied(old(cache.redis.data), c)
      ensures cache.redis.expiring == old(cache.redis.expiring) && cache.redis.published == old(cache.redis.published)
      ensures cache.Local() == old(cache.Local())
    {
      if |values| == 0 {
        return Pass;
      }
      r := cache.SAdd(key, values);
    }

    /** `remove(Collection)`: SREM of all values, and no store call for an empty collection. */
    method RemoveValues(values: seq<Obj>) returns (r: Outcome)
      modifies cache.redis, cache.storage
      ensures |values| == 0 ==> r == Pass && cache.redis.data == old(cache.redis.data) && cache.Local() == old(cache.Local())
      ensures |values| > 0 ==>
                var c := Server.SRemCmd(old(cache.redis.data), key, Encoded(cache.gson, values));
                r == Server.Status(c) && cache.redis.data == Server.Applied(old(cache.redis.data), c)
      ensures |values| > 0 ==>
                cache.Local() == if r.Pass? then PrefixInvalidated(old(cache.Local()), key + ":set:") else old(cache.Local())
      ensures cache.redis.expiring == Server.KeepTtl(old(cache.redis.expiring), old(cache.redis.data), cache.redis.data) && cache.redis.published == old(cache.redis.published)
    {
      if |values| == 0 {
        return Pass;
      }
      r := cache.SRemove(key, values);
    }

    method IsMember(v: Obj) returns (r: Result<bool>)
      ensures r == match Server.SetAt(cache.redis.data, key)
                   case Err(e) => Err(e)
                   case Ok(s) => Ok(cache.gson.toJson(v) in s)
    {
      r := cache.SIsMember(key, v);
    }

    method Members() returns (r: Result<set<Option<Obj>>>)
      modifies cache.storage
      ensures Read(r, cache.Local()) ==
                SetViewRead(old(cache.Local()), SetViewKey(key, cls), Server.SetAt(cache.redis.data, key), cls, cache.gson)
    {
      r := cache.SMembers(key, cls);
    }

    method LongSize() returns (r: Result<nat>)
      ensures Server.SetAt(cache.redis.data, key).Err? ==> r == Err(WrongType)
      ensures Server.SetAt(cache.redis.data, key).Ok? ==> r == Ok(|Server.SetAt(cache.redis.data, key).value|)
    {
      r := cache.SCard(key);
    }

    /** `size()`: the cardinality narrowed to an `int` by `Long.intValue`. */
    method Size() returns (r: Result<int32>)
      ensures Server.SetAt(cache.redis.data, key).Err? ==> r == Err(WrongType)
      ensures Server.SetAt(cache.redis.data, key).Ok? ==> r == Ok(IntValue(|Server.SetAt(cache.redis.data, key).value|))
    {
      var n := LongSize();
      if n.Err? {
        return Err(n.error);
      }
      r := Ok(IntValue(n.value));
    }

    /** `isEmpty()`: the cardinality is 0. */
    method IsEmpty() returns (r: Result<bool>)
      ensures Server.SetAt(cache.redis.data, key).Err? ==> r == Err(WrongType)
      ensures Server.SetAt(cache.redis.data, key).Ok? ==> r == Ok(Server.SetAt(cache.redis.data, key).value == {})
    {
      var n := LongSize();
      if n.Err? {
        return Err(n.error);
      }
      r := Ok(n.value == 0);
    }

    /** `contains(o)`: false for a null or a non-`cls` object, store membership otherwise. */
    method Contains(o: Option<Obj>) returns (r: Result<bool>)
      ensures r == ContainsAt(cache.redis.data, key, cls, cache.gson, o)
    {
      if o.None? || !IsInstance(o.value, cls) {
        return Ok(false);
      }
      r := IsMember(o.value);
    }

    /** `add(V)`: always true when SADD does not throw. */
    method Add(v: Obj) returns (r: Result<bool>)
      modifies cache.redis
      ensures var c := Server.SAddCmd(old(cache.redis.data), key, [cache.gson.toJson(v)]);
              r == (if c.Ok? then Ok(true) else Err(c.error)) && cache.redis.data == Server.Applied(old(cache.redis.data), c)
      ensures cache.redis.expiring == old(cache.redis.expiring) && cache.redis.published == old(cache.redis.published)
      ensures cache.Local() == old(cache.Local())
    {
      EncodedOne(cache.gson, v);
      var o := cache.SAdd(key, [v]);
      if o.Fail? {
        return Err(o.error);
      }
      r := Ok(true);
    }

    /**
     * `remove(o)`: false with no store call for a null or non-`cls`
     * object; true for any `cls` instance, member or not, when SREM does
     * not throw.
     */
    method Remove(o: Option<Obj>) returns (r: Result<bool>)
      modifies cache.redis, cache.storage
      ensures o.None? || !IsInstance(o.value, cls) ==>
                r == Ok(false) && cache.redis.data == old(cache.redis.data) && cache.Local() == old(cache.Local())
      ensures o.Some? && IsInstance(o.value, cls) ==>
                var c := Server.SRemCmd(old(cache.redis.data), key, [cache.gson.toJson(o.value)]);
                r == (if c.Ok? then Ok(true) else Err(c.error)) && cache.redis.data == Server.Applied(old(cache.redis.data), c)
      ensures cache.Local() == if r == Ok(true) then PrefixInvalidated(old(cache.Local()), key + ":set:") else old(cache.Local())
      ensures cache.redis.expiring == Server.KeepTtl(old(cache.redis.expiring), old(cache.redis.data), cache.redis.data) && cache.redis.published == old(cache.redis.published)
    {
      if o.None? || !IsInstance(o.value, cls) {
        return Ok(false);
      }
      EncodedOne(cache.gson, o.value);
      var out := cache.SRemove(key, [o.value]);
      if out.Fail? {
        return Err(out.error);
      }
      r := Ok(true);
    }

    /** `containsAll(c)`: every element is contained; the first false or throw ends the scan. */
    method ContainsAll(c: seq<Option<Obj>>) returns (r: Result<bool>)
      ensures r == AllContained(cache.redis.data, key, cls, cache.gson, c)
    {
      for i := 0 to |c|
        invariant AllContained(cache.redis.data, key, cls, cache.gson, c) ==
                  AllContained(cache.redis.data, key, cls, cache.gson, c[i..])
      {
        assert c[i..][1..] == c[i + 1..];
        var b := Contains(c[i]);
        if b.Err? {
          return Err(b.error);
        }
        if !b.value {
          return Ok(false);
        }
      }
      r := Ok(true);
    }

    /** `addAll(c)`: `add(c)`, then true. */
    method AddAll(c: seq<Obj>) returns (r: Result<bool>)
      modifies cache.redis
      ensures |c| == 0 ==> r == Ok(true) && cache.redis.data == old(cache.redis.data)
      ensures |c| > 0 ==>
                var cmd := Server.SAddCmd(old(cache.redis.data), key, Encoded(cache.gson, c));
                r == (if cmd.Ok? then Ok(true) else Err(cmd.error)) && cache.redis.data == Server.Applied(old(cache.redis.data), cmd)
      ensures cache.redis.expiring == old(cache.redis.expiring) && cache.redis.published == old(cache.redis.published)
      ensures cache.Local() == old(cache.Local())
    {
      var o := AddValues(c);
      if o.Fail? {
        return Err(o.error);
      }
      r := Ok(true);
    }

    /**
     * `removeAll(c)`: `remove` of every element. True exactly when `c`
     * holds a `cls` instance; their JSON texts leave the stored set, and a
     * store key that is not a set throws at the first instance.
     */
    method RemoveAll(c: seq<Option<Obj>>) returns (r: Result<bool>)
      modifies cache.redis, cache.storage
      ensures Instances(c, cls) == {} ==> r == Ok(false) && cache.redis.data == old(cache.redis.data)
      ensures Instances(c, cls) != {} && Server.SetAt(old(cache.redis.data), key).Err? ==>
                r == Err(WrongType) && cache.redis.data == old(cache.redis.data)
      ensures Server.SetAt(old(cache.redis.data), key).Ok? ==>
                r == Ok(Instances(c, cls) != {}) &&
                Server.SetAt(cache.redis.data, key) ==
                  Ok(Server.SetAt(old(cache.redis.data), key).value - JsonOf(Instances(c, cls), cache.gson)) &&
                cache.redis.data - {key} == old(cache.redis.data) - {key}
      ensures cache.Local() == if r == Ok(true) then PrefixInvalidated(old(cache.Local()), key + ":set:") else old(cache.Local())
      ensures cache.redis.expiring == Server.KeepTtl(old(cache.redis.expiring), old(cache.redis.data), cache.redis.data) && cache.redis.published == old(cache.redis.published)
    {
      var changed := false;
      assert Instances(c[..0], cls) == {};
      assert JsonOf({}, cache.gson) == {};
      if Server.SetAt(old(cache.redis.data), key).Ok? {
        var s0 := Server.SetAt(old(cache.redis.data), key).value;
        assert s0 - {} == s0;
        assert Server.SetAt(cache.redis.data, key) == Ok(s0);
        assert Server.SetAt(cache.redis.data, key) == Ok(s0 - JsonOf(Instances(c[..0], cls), cache.gson));
      }
      for i := 0 to |c|
        invariant changed <==> Instances(c[..i], cls) != {}
        invariant !changed ==> cache.redis.data == old(cache.redis.data)
        invariant Server.SetAt(old(cache.redis.data), key).Err? ==>
                    !changed && cache.redis.data == old(cache.redis.data)
        invariant Server.SetAt(old(cache.redis.data), key).Ok? ==>
                    Server.SetAt(cache.redis.data, key) ==
                      Ok(Server.SetAt(old(cache.redis.data), key).value - JsonOf(Instances(c[..i], cls), cache.gson)) &&
                    cache.redis.data - {key} == old(cache.redis.data) - {key}
        invariant cache.Local() == if changed then PrefixInvalidated(old(cache.Local()), key + ":set:") else old(cache.Local())
        invariant cache.redis.expiring == Server.KeepTtl(old(cache.redis.expiring), old(cache.redis.data), cache.redis.data) && cache.redis.published == old(cache.redis.published)
        invariant cache.redis.data.Keys <= old(cache.redis.data).Keys
      {
        assert c[..i + 1][..i] == c[..i];
        WithoutPrefixIdempotent(old(cache.storage.typed), key + ":set:");
        ghost var before := cache.redis.data;
        ghost var gone := JsonOf(Instances(c[..i], cls), cache.gson);
        if c[i].Some? && IsInstance(c[i].value, cls) {
          assert Instances(c[..i + 1], cls) == Instances(c[..i], cls) + {c[i].value};
          JsonOfAdd(Instances(c[..i], cls), c[i].value, cache.gson);
          if Server.SetAt(old(cache.redis.data), key).Ok? {
            SRemOne(before, key, cache.gson.toJson(c[i].value));
            var s0 := Server.SetAt(old(cache.redis.data), key).value;
            assert (s0 - gone) - {cache.gson.toJson(c[i].value)} == s0 - (gone + {cache.gson.toJson(c[i].value)});
          }
        } else {
          assert Instances(c[..i + 1], cls) == Instances(c[..i], cls);
        }
        var removed := Remove(c[i]);
        Server.KeepTtlThen(old(cache.redis.expiring), old(cache.redis.data), before, cache.redis.data);
        if removed.Err? {
          assert c[i] in c;
          return Err(removed.error);
        }
        if removed.value {
          changed := true;
        }
      }
      assert c[..|c|] == c;
      r := Ok(changed);
    }

    /**
     * `retainAll(c)`: every member that is not a `cls` element of `c` is
     * passed to `remove`. True exactly when some member was such a victim,
     * also a null one that `remove` then ignores.
     */
    method RetainAll(c: seq<Option<Obj>>) returns (r: Result<bool>)
      modifies cache.storage, cache.redis
      ensures var m := SetViewRead(old(cache.Local()), SetViewKey(key, cls), Server.SetAt(old(cache.redis.data), key), cls, cache.gson).value;
              m.Err? ==> r == Err(m.error) && cache.redis.data == old(cache.redis.data)
      ensures var m := SetViewRead(old(cache.Local()), SetViewKey(key, cls), Server.SetAt(old(cache.redis.data), key), cls, cache.gson).value;
              m.Ok? && DroppedInstances(m.value, Instances(c, cls), cls) == {} ==>
                r == Ok(Dropped(m.value, Instances(c, cls)) != {}) && cache.redis.data == old(cache.redis.data)
      ensures var m := SetViewRead(old(cache.Local()), SetViewKey(key, cls), Server.SetAt(old(cache.redis.data), key), cls, cache.gson).value;
              m.Ok? && DroppedInstances(m.value, Instances(c, cls), cls) != {} && Server.SetAt(old(cache.redis.data), key).Err? ==>
                r == Err(WrongType) && cache.redis.data == old(cache.redis.data)
      ensures var m := SetViewRead(old(cache.Local()), SetViewKey(key, cls), Server.SetAt(old(cache.redis.data), key), cls, cache.gson).value;
              m.Ok? && Server.SetAt(old(cache.redis.data), key).Ok? ==>
                r == Ok(Dropped(m.value, Instances(c, cls)) != {}) &&
                Server.SetAt(cache.redis.data, key) ==
                  Ok(Server.SetAt(old(cache.redis.data), key).value - JsonOf(DroppedInstances(m.value, Instances(c, cls), cls), cache.gson)) &&
                cache.redis.data - {key} == old(cache.redis.data) - {key}
      ensures var v := SetViewRead(old(cache.Local()), SetViewKey(key, cls), Server.SetAt(old(cache.redis.data), key), cls, cache.gson);
              cache.Local() ==
                if v.value.Ok? && DroppedInstances(v.value.value, Instances(c, cls), cls) != {} && Server.SetAt(old(cache.redis.data), key).Ok?
                then PrefixInvalidated(v.after, key + ":set:") else v.after
      ensures cache.redis.expiring == Server.KeepTtl(old(cache.redis.expiring), old(cache.redis.data), cache.redis.data) && cache.redis.published == old(cache.redis.published)
    {
      var retain := Instances(c, cls);
      var ms := Members();
      if ms.Err? {
        return Err(ms.error);
      }
      ghost var start := cache.redis.data;
      ghost var viewed := cache.Local();
      var changed := false;
      var left := ms.value;
      ghost var done: set<Option<Obj>> := {};
      assert JsonOf({}, cache.gson) == {};
      assert DroppedInstances({}, retain, cls) == {};
      if Server.SetAt(start, key).Ok? {
        var s0 := Server.SetAt(start, key).value;
        assert s0 - {} == s0;
      }
      while left != {}
        invariant left + done == ms.value && left !! done
        invariant DroppedInstances(done, retain, cls) == {} ==> cache.redis.data == start
        invariant changed <==> Dropped(done, retain) != {}
        invariant Server.SetAt(start, key).Err? ==>
                    DroppedInstances(done, retain, cls) == {} && cache.redis.data == start
        invariant Server.SetAt(start, key).Ok? ==>
                    Server.SetAt(cache.redis.data, key) ==
                      Ok(Server.SetAt(start, key).value - JsonOf(DroppedInstances(done, retain, cls), cache.gson)) &&
                    cache.redis.data - {key} == start - {key}
        invariant cache.Local() ==
                    if DroppedInstances(done, retain, cls) != {} && Server.SetAt(start, key).Ok?
                    then PrefixInvalidated(viewed, key + ":set:") else viewed
        invariant cache.redis.expiring == Server.KeepTtl(old(cache.redis.expiring), old(cache.redis.data), cache.redis.data) && cache.redis.published == old(cache.redis.published)
        invariant cache.redis.data.Keys <= old(cache.redis.data).Keys
        decreases left
      {
        WithoutPrefixIdempotent(viewed.typed, key + ":set:");
        var v :| v in left;
        DroppedInstancesAdd(done, v, retain, cls);
        ghost var before := cache.redis.data;
        ghost var gone := JsonOf(DroppedInstances(done, retain, cls), cache.gson);
        if !(v.Some? && v.value in retain) {
          if v.Some? && IsInstance(v.value, cls) {
            JsonOfAdd(DroppedInstances(done, retain, cls), v.value, cache.gson);
            if Server.SetAt(start, key).Ok? {
              SRemOne(before, key, cache.gson.toJson(v.value));
              var s0 := Server.SetAt(start, key).value;
              assert (s0 - gone) - {cache.gson.toJson(v.value)} == s0 - (gone + {cache.gson.toJson(v.value)});
            }
          }
          var removed := Remove(v);
          Server.KeepTtlThen(old(cache.redis.expiring), old(cache.redis.data), before, cache.redis.data);
          if removed.Err? {
            assert v.value in DroppedInstances(ms.value, retain, cls);
            return Err(removed.error);
          }
          changed := true;
        }
        assert v in Dropped(done + {v}, retain) <==> !(v.Some? && v.value in retain);
        if Server.SetAt(start, key).Ok? {
          var s0 := Server.SetAt(start, key).value;
          if v.Some? && IsInstance(v.value, cls) && v.value !in retain {
            assert Server.SetAt(cache.redis.data, key) == Ok((s0 - gone) - {cache.gson.toJson(v.value)});
          } else {
            assert cache.redis.data == before;
            assert DroppedInstances(done + {v}, retain, cls) == DroppedInstances(done, retain, cls);
          }
        }
        done := done + {v};
        left := left - {v};
      }
      r := Ok(changed);
    }

    /** `clear()`: `kDelete` of the set's key. */
    method Clear() returns (r: Outcome)
      requires cache.Valid()
      modifies cache.redis, cache.storage, cache.manager
      ensures cache.Valid() && r == Pass
      ensures cache.redis.data == old(cache.redis.data) - {key}
      ensures cache.redis.expiring == old(cache.redis.expiring) - {key}
      ensures Server.SetAt(cache.redis.data, key) == Ok({})
      ensures cache.storage.raw == old(cache.storage.raw) - {key}
      ensures cache.storage.typed == WithoutKeys(old(cache.storage.typed), [key])
      ensures cache.manager.tasks == old(cache.manager.tasks) - {key}
      ensures cache.redis.published == old(cache.redis.published) + Announcements([key], cache.gson)
    {
      assert (set x | x in [key]) == {key} by {
        assert [key][0] == key;
      }
      r := cache.KDelete([key]);
    }
  }

  /** An added value is contained right afterwards. */
  method AddThenContains(s: SedisSet, v: Obj) returns (r: Result<bool>)
    requires IsInstance(v, s.cls)
    requires Server.SetAt(s.cache.redis.data, s.key).Ok?
    modifies s.cache.redis
    ensures r == Ok(true)
  {
    var a := s.Add(v);
    r := s.Contains(Some(v));
  }

  /** A removed value is not contained right afterwards. */
  method RemoveThenContains(s: SedisSet, v: Obj) returns (r: Result<bool>)
    requires IsInstance(v, s.cls)
    requires Server.SetAt(s.cache.redis.data, s.key).Ok?
    modifies s.cache.redis, s.cache.storage
    ensures r == Ok(false)
  {
    SRemOne(s.cache.redis.data, s.key, s.cache.gson.toJson(v));
    var a := s.Remove(Some(v));
    r := s.Contains(Some(v));
  }

  /** After `clear()` the set is empty and its size is 0. */
  method ClearThenSize(s: SedisSet) returns (e: Result<bool>, n: Result<int32>)
    requires s.cache.Valid()
    modifies s.cache.redis, s.cache.storage, s.cache.manager
    ensures e == Ok(true) && n == Ok(0)
  {
    var c := s.Clear();
    e := s.IsEmpty();
    n := s.Size();
  }
}
