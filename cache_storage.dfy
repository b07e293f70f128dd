/**
 * The node-local two-level store: a raw map from key to the JSON text
 * last seen for it, and a typed map from a derived key to a decoded
 * object or a decoded view of a collection.
 */
module LocalStore {
  import opened Wrappers
  import opened JavaString
  import opened Jvm

  /** What the typed map holds under one key. */
  datatype Cached =
    | Single(obj: Obj)            // a decoded value (kGet, hGet, lIndex)
    | ListView(items: seq<Option<Obj>>)   // a decoded range (zRange, zRevRange, lRange); `None` is a null element
    | SetView(members: set<Option<Obj>>)  // decoded members (sMembers)

  /** The delimiter of typed and composite keys. */
  const SEP: string := ":"

  /** `m` without the keys that start with `p`, as `keySet().removeIf(k -> k.startsWith(p))` leaves it. */
  function WithoutPrefix<V>(m: map<string, V>, p: string): (r: map<string, V>)
    ensures forall k :: k in r <==> k in m && !StartsWith(k, p)
    ensures forall k | k in r :: r[k] == m[k]
  {
    map k | k in m && !StartsWith(k, p) :: m[k]
  }

  /** The typed key of a value of class `cls` stored under `key`. */
  function BuildTypedKey(key: string, cls: ClassName): (r: string)
    ensures StartsWith(r, key + SEP)
    ensures r[|key + SEP|..] == cls
  {
    key + SEP + cls
  }

  /** The key of a collection view, its parts joined by the delimiter. */
  function BuildCompositeKey(parts: seq<string>): (r: string)
    ensures |parts| > 0 && (forall i | 0 <= i < |parts| :: ':' !in parts[i]) ==> Split(r, ':') == parts
  {
    ColonFreePartsSplitBack(parts);
    Join(SEP, parts)
  }

  /** Colon-free parts come back out of their joined key. */
  lemma ColonFreePartsSplitBack(parts: seq<string>)
    ensures |parts| > 0 && (forall i | 0 <= i < |parts| :: ':' !in parts[i]) ==> Split(Join(SEP, parts), ':') == parts
  {
    if |parts| > 0 && forall i | 0 <= i < |parts| :: ':' !in parts[i] {
      SplitJoin(parts, ':');
    }
  }

  /** A composite key `[k, t, x, ...]` lies under both `k + ":"` and `k + ":" + t + ":"`. */
  lemma CompositeKeyPrefixes(parts: seq<string>)
    requires |parts| >= 3
    ensures StartsWith(BuildCompositeKey(parts), parts[0] + SEP)
    ensures StartsWith(BuildCompositeKey(parts), parts[0] + SEP + parts[1] + SEP)
  {
    JoinHead(SEP, parts);
    JoinHead(SEP, parts[1..]);
    var tail := Join(SEP, parts[2..]);
    assert BuildCompositeKey(parts) == parts[0] + SEP + parts[1] + SEP + tail;
    assert (parts[0] + SEP + parts[1] + SEP + tail)[..|parts[0] + SEP + parts[1] + SEP|] == parts[0] + SEP + parts[1] + SEP;
  }

  /** A two-part composite key is `k + ":" + x`. */
  lemma CompositeKeyOfTwo(k: string, x: string)
    ensures BuildCompositeKey([k, x]) == k + SEP + x
  {
    assert [k, x][1..] == [x];
    assert Join(SEP, [x]) == x;
  }

  /** Removing a prefix twice removes nothing more. */
  lemma WithoutPrefixIdempotent<V>(m: map<string, V>, p: string)
    ensures WithoutPrefix(WithoutPrefix(m, p), p) == WithoutPrefix(m, p)
  {
  }

  /** Every typed entry derived from `key` lies under `key + ":"`. */
  lemma TypedKeyCoveredByKey<V>(m: map<string, V>, key: string, cls: ClassName)
    ensures BuildTypedKey(key, cls) !in WithoutPrefix(m, key + SEP)
  {
  }

  /** The raw map and the typed map of a `CacheStorage`. */
  class CacheStorage {
    var raw: map<string, string>
    var typed: map<string, Cached>

    constructor()
      ensures raw == map[] && typed == map[]
    {
      raw, typed := map[], map[];
    }

    method PutRaw(key: string, json: string)
      modifies this
      ensures raw == old(raw)[key := json] && typed == old(typed)
    {
      raw := raw[key := json];
    }

    method GetRaw(key: string) returns (r: Option<string>)
      ensures r == Lookup(raw, key)
    {
      r := Lookup(raw, key);
    }

    method PutTyped(key: string, value: Cached)
      modifies this
      ensures typed == old(typed)[key := value] && raw == old(raw)
    {
      typed := typed[key := value];
    }

    method GetTyped(key: string) returns (r: Option<Cached>)
      ensures r == Lookup(typed, key)
    {
      r := Lookup(typed, key);
    }

    /** Drops the raw slot of `key` and every typed key under `key + ":"`. */
    method InvalidateKey(key: string)
      modifies this
      ensures raw == old(raw) - {key}
      ensures typed == WithoutPrefix(old(typed), key + SEP)
    {
      raw := raw - {key};
      typed := WithoutPrefix(typed, key + SEP);
    }

    /** Drops the typed keys under `prefix`; the raw map is untouched. */
    method InvalidateByPrefix(prefix: string)
      modifies this
      ensures raw == old(raw)
      ensures typed == WithoutPrefix(old(typed), prefix)
    {
      typed := WithoutPrefix(typed, prefix);
    }

    method Clear()
      modifies this
      ensures raw == map[] && typed == map[]
    {
      raw, typed := map[], map[];
    }
  }

  /** Invalidating a key twice leaves the store as invalidating it once. */
  method InvalidateKeyTwice(s: CacheStorage, key: string)
    modifies s
    ensures s.raw == old(s.raw) - {key}
    ensures s.typed == WithoutPrefix(old(s.typed), key + SEP)
  {
    s.InvalidateKey(key);
    s.InvalidateKey(key);
    WithoutPrefixIdempotent(old(s.typed), key + SEP);
  }

  /** Prefix invalidation applied twice equals applying it once. */
  method InvalidateByPrefixTwice(s: CacheStorage, prefix: string)
    modifies s
    ensures s.raw == old(s.raw)
    ensures s.typed == WithoutPrefix(old(s.typed), prefix)
  {
    s.InvalidateByPrefix(prefix);
    s.InvalidateByPrefix(prefix);
    WithoutPrefixIdempotent(old(s.typed), prefix);
  }

  /**
   * The example of views derived from base key "k": exact invalidation of
   * "k" drops both views, prefix invalidation of "k:set:" only the set view.
   */
  lemma ExactAndPrefixInvalidationOfViews(m: map<string, Cached>, a: Cached, b: Cached)
    requires m == map["k:set:ClassA" := a, "k:list:ClassB" := b]
    ensures WithoutPrefix(m, "k" + SEP) == map[]
    ensures WithoutPrefix(m, "k:set:") == map["k:list:ClassB" := b]
  {
    assert StartsWith("k:set:ClassA", "k:");
    assert StartsWith("k:list:ClassB", "k:");
    assert StartsWith("k:set:ClassA", "k:set:");
    assert !StartsWith("k:list:ClassB", "k:set:") by {
      assert "k:list:ClassB"[..6] != "k:set:" by { assert "k:list:ClassB"[2] != "k:set:"[2]; }
    }
  }
}
