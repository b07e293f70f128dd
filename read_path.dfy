/**
 * The read paths of the cache facade as functions of the two local tiers
 * and of what the store would answer: the single-value read-through and
 * the cached collection views.
 */
module ReadPath {
  import opened Wrappers
  import opened JavaString
  import opened Jvm
  import opened LocalStore

  /** The raw and typed maps of a `CacheStorage`, as a value. */
  datatype Tiers = Tiers(raw: map<string, string>, typed: map<string, Cached>)

  /** What a read returns and the tiers it leaves behind. */
  datatype Read<T> = Read(value: Result<T>, after: Tiers)

  /** The tiers after `invalidateKey(key)`. */
  function Invalidated(t: Tiers, key: string): (r: Tiers)
    ensures key !in r.raw && forall k | k in r.typed :: !StartsWith(k, key + SEP)
  {
    Tiers(t.raw - {key}, WithoutPrefix(t.typed, key + SEP))
  }

  /** The tiers after `invalidateByPrefix(p)`. */
  function PrefixInvalidated(t: Tiers, p: string): (r: Tiers)
    ensures r.raw == t.raw && forall k | k in r.typed :: !StartsWith(k, p)
  {
    Tiers(t.raw, WithoutPrefix(t.typed, p))
  }

  /** A value read that reaches the store: the fetched text decoded, a miss empty. */
  function FromStore(fetched: Result<Option<string>>, cls: ClassName, g: Gson): Result<Option<Cached>>
  {
    match fetched
    case Err(e) => Err(e)
    case Ok(None) => Ok(None)
    case Ok(Some(j)) =>
      match g.fromJson(j, cls)
      case Threw => Err(DecodeFailed)
      case Null => Err(NullValue)
      case Parsed(o) => Ok(Some(Single(o)))
  }

  /**
   * `getFromCacheOrRedis(key, cls, getter)`: the typed slot `key:cls`, then
   * the raw slot `key` decoded, then `fetched`, the getter's answer. The
   * typed slot is returned whatever it holds: the value type is erased, so
   * a collection view cached under a colliding key reaches the caller
   * unchecked. Gson yielding null makes the typed `put` throw: after a
   * store hit the raw slot is then already written.
   */
  function ReadThrough(t: Tiers, key: string, cls: ClassName, fetched: Result<Option<string>>, g: Gson): (r: Read<Option<Cached>>)
    ensures r.after.raw - {key} == t.raw - {key}
    ensures r.after.typed - {BuildTypedKey(key, cls)} == t.typed - {BuildTypedKey(key, cls)}
    ensures r.value.Err? ==> r.after.typed == t.typed
    ensures r.value == Ok(None) ==> r.after == t
    ensures r.value.Ok? && r.value.value.Some? ==>
              BuildTypedKey(key, cls) in r.after.typed && r.after.typed[BuildTypedKey(key, cls)] == r.value.value.value
    ensures BuildTypedKey(key, cls) !in t.typed && r.value.Ok? && r.value.value.Some? ==> r.value.value.value.Single?
  {
    var tk := BuildTypedKey(key, cls);
    if tk in t.typed then
      Read(Ok(Some(t.typed[tk])), t)
    else if key in t.raw then
      match g.fromJson(t.raw[key], cls)
      case Threw => Read(Err(DecodeFailed), t)
      case Null => Read(Err(NullValue), t)
      case Parsed(o) => Read(Ok(Some(Single(o))), Tiers(t.raw, t.typed[tk := Single(o)]))
    else
      match fetched
      case Err(e) => Read(Err(e), t)
      case Ok(None) => Read(Ok(None), t)
      case Ok(Some(j)) =>
        match g.fromJson(j, cls)
        case Threw => Read(Err(DecodeFailed), t)
        case Null => Read(Err(NullValue), Tiers(t.raw[key := j], t.typed))
        case Parsed(o) => Read(Ok(Some(Single(o))), Tiers(t.raw[key := j], t.typed[tk := Single(o)]))
  }

  /** While either local tier has the key, the store's answer does not matter. */
  lemma LocalHitIgnoresStore(t: Tiers, key: string, cls: ClassName, f1: Result<Option<string>>, f2: Result<Option<string>>, g: Gson)
    requires BuildTypedKey(key, cls) in t.typed || key in t.raw
    ensures ReadThrough(t, key, cls, f1, g) == ReadThrough(t, key, cls, f2, g)
  {
  }

  /** A typed hit returns the cached entry, whatever its shape, and changes nothing. */
  lemma TypedHitFirst(t: Tiers, key: string, cls: ClassName, f: Result<Option<string>>, g: Gson)
    requires BuildTypedKey(key, cls) in t.typed
    ensures ReadThrough(t, key, cls, f, g) == Read(Ok(Some(t.typed[BuildTypedKey(key, cls)])), t)
  {
  }

  /**
   * The set view of `key` sits in the typed slot of `key:set`, so a
   * single-value read of `key:set` after `sMembers(key)` returns that view.
   */
  lemma SetViewReadAsValue(t: Tiers, key: string, cls: ClassName, f: Result<Option<string>>, g: Gson)
    requires SetViewKey(key, cls) in t.typed
    ensures SetViewKey(key, cls) == BuildTypedKey(key + ":set", cls)
    ensures ReadThrough(t, key + ":set", cls, f, g) == Read(Ok(Some(t.typed[SetViewKey(key, cls)])), t)
  {
    SetViewKeyIsTypedKey(key, cls);
    TypedHitFirst(t, key + ":set", cls, f, g);
  }

  lemma SetViewKeyIsTypedKey(key: string, cls: ClassName)
    ensures SetViewKey(key, cls) == BuildTypedKey(key + ":set", cls)
  {
    var parts := [key, "set", cls];
    JoinHead(SEP, parts);
    assert parts[1..] == ["set", cls];
    CompositeKeyOfTwo("set", cls);
    assert key + SEP + ("set" + SEP + cls) == key + ":set" + SEP + cls;
  }

  /** A raw hit is decoded into the typed slot; the raw tier is kept. */
  lemma RawHitSecond(t: Tiers, key: string, cls: ClassName, f: Result<Option<string>>, g: Gson)
    requires BuildTypedKey(key, cls) !in t.typed && key in t.raw
    requires g.fromJson(t.raw[key], cls).Parsed?
    ensures var o := g.fromJson(t.raw[key], cls).obj;
            ReadThrough(t, key, cls, f, g) == Read(Ok(Some(Single(o))), Tiers(t.raw, t.typed[BuildTypedKey(key, cls) := Single(o)]))
  {
  }

  /** With both tiers empty for the key, a store miss returns empty and caches nothing. */
  lemma StoreMissCachesNothing(t: Tiers, key: string, cls: ClassName, g: Gson)
    requires BuildTypedKey(key, cls) !in t.typed && key !in t.raw
    ensures ReadThrough(t, key, cls, Ok(None), g) == Read(Ok(None), t)
  {
  }

  /** A value just read is served again, from the typed tier, whatever the store says now. */
  lemma ReadThroughRepeats(t: Tiers, key: string, cls: ClassName, f1: Result<Option<string>>, f2: Result<Option<string>>, g: Gson)
    requires ReadThrough(t, key, cls, f1, g).value.Ok? && ReadThrough(t, key, cls, f1, g).value.value.Some?
    ensures var first := ReadThrough(t, key, cls, f1, g);
            ReadThrough(first.after, key, cls, f2, g) == first
  {
  }

  /** After `invalidateKey(key)` a read answers from the store alone. */
  lemma ReadAfterInvalidationAsksStore(t: Tiers, key: string, cls: ClassName, f: Result<Option<string>>, g: Gson)
    ensures ReadThrough(Invalidated(t, key), key, cls, f, g).value == FromStore(f, cls, g)
  {
    TypedKeyCoveredByKey(t.typed, key, cls);
  }

  /** After the local half of `kSet(key, v)`, a read of `v`'s class returns `v` without the store. */
  lemma ReadAfterWriteHits(t: Tiers, key: string, json: string, v: Obj, f: Result<Option<string>>, g: Gson)
    ensures var w := Tiers(t.raw[key := json], t.typed[BuildTypedKey(key, v.cls) := Single(v)]);
            ReadThrough(w, key, v.cls, f, g) == Read(Ok(Some(Single(v))), w)
  {
  }

  /** `gson.fromJson` over a list, in order; the first throw aborts the whole decode. */
  function DecodeSeq(js: seq<string>, cls: ClassName, g: Gson): (r: Result<seq<Option<Obj>>>)
    ensures r.Ok? <==> forall i | 0 <= i < |js| :: !g.fromJson(js[i], cls).Threw?
    ensures r.Ok? ==> |r.value| == |js| && forall i | 0 <= i < |js| :: r.value[i] == g.fromJson(js[i], cls).Ref()
    ensures r.Err? ==> r.error == DecodeFailed
  {
    if js == [] then Ok([])
    else
      var d := g.fromJson(js[0], cls);
      if d.Threw? then Err(DecodeFailed)
      else
        match DecodeSeq(js[1..], cls, g)
        case Err(e) => Err(e)
        case Ok(rest) => Ok([d.Ref()] + rest)
  }

  /** `gson.fromJson` over a set of members, collected into a set. */
  function DecodeSet(ms: set<string>, cls: ClassName, g: Gson): (r: Result<set<Option<Obj>>>)
    ensures r.Ok? <==> forall m | m in ms :: !g.fromJson(m, cls).Threw?
    ensures r.Ok? ==> forall m | m in ms :: g.fromJson(m, cls).Ref() in r.value
    ensures r.Ok? ==> forall x | x in r.value :: exists m | m in ms :: g.fromJson(m, cls).Ref() == x
  {
    if forall m | m in ms :: !g.fromJson(m, cls).Threw? then
      Ok(set m | m in ms :: g.fromJson(m, cls).Ref())
    else
      Err(DecodeFailed)
  }

  /** The view key of `sMembers(key, cls)`. */
  function SetViewKey(key: string, cls: ClassName): string
  {
    BuildCompositeKey([key, "set", cls])
  }

  /** The view key of `lRange`, `zRange` and `zRevRange`: `kind` is "list" or "zset", `dir` "range" or "revrange". */
  function RangeViewKey(key: string, kind: string, dir: string, start: int, end: int, cls: ClassName): string
  {
    BuildCompositeKey([key, kind, dir, ValueOf(start), ValueOf(end), cls])
  }

  /** The view key of `lIndex(key, index, cls)`. */
  function IndexViewKey(key: string, index: int, cls: ClassName): string
  {
    BuildCompositeKey([key, "list", "index", ValueOf(index), cls])
  }

  /** The base key of a hash field's slot: `key:hkJson`. */
  function FieldKey(key: string, hkJson: string): (r: string)
    ensures r == key + SEP + hkJson
  {
    CompositeKeyOfTwo(key, hkJson);
    BuildCompositeKey([key, hkJson])
  }

  /** A composite key of at least three parts lies under `k:` and `k:kind:`. */
  lemma ViewKeyUnder(parts: seq<string>, key: string, kind: string)
    requires |parts| >= 3 && parts[0] == key && parts[1] == kind
    ensures StartsWith(BuildCompositeKey(parts), key + SEP)
    ensures StartsWith(BuildCompositeKey(parts), key + SEP + kind + SEP)
  {
    CompositeKeyPrefixes(parts);
  }

  /** Every set view of `key` is dropped by invalidating `key:set:`, and by invalidating `key`. */
  lemma SetViewCovered(key: string, cls: ClassName)
    ensures StartsWith(SetViewKey(key, cls), key + ":set:")
    ensures StartsWith(SetViewKey(key, cls), key + SEP)
  {
    ViewKeyUnder([key, "set", cls], key, "set");
    assert key + SEP + "set" + SEP == key + ":set:";
  }

  /** Every range view of a list or sorted set is dropped by invalidating `key:kind:`, and by invalidating `key`. */
  lemma RangeViewCovered(key: string, kind: string, dir: string, start: int, end: int, cls: ClassName)
    ensures StartsWith(RangeViewKey(key, kind, dir, start, end, cls), key + SEP + kind + SEP)
    ensures StartsWith(RangeViewKey(key, kind, dir, start, end, cls), key + SEP)
  {
    ViewKeyUnder([key, kind, dir, ValueOf(start), ValueOf(end), cls], key, kind);
  }

  /** Every index view of a list is dropped by invalidating `key:list:`. */
  lemma IndexViewCovered(key: string, index: int, cls: ClassName)
    ensures StartsWith(IndexViewKey(key, index, cls), key + ":list:")
    ensures StartsWith(IndexViewKey(key, index, cls), key + SEP)
  {
    ViewKeyUnder([key, "list", "index", ValueOf(index), cls], key, "list");
    assert key + SEP + "list" + SEP == key + ":list:";
  }

  /** A cached view is returned as is; a miss decodes the store's answer and caches it under `ck`. */
  function SetViewRead(t: Tiers, ck: string, fetched: Result<set<string>>, cls: ClassName, g: Gson): (r: Read<set<Option<Obj>>>)
    ensures r.after.raw == t.raw && r.after.typed - {ck} == t.typed - {ck}
    ensures r.value.Ok? ==> ck in r.after.typed && r.after.typed[ck] == SetView(r.value.value)
    ensures r.value.Err? ==> r.after == t
    ensures ck in t.typed ==> r.value == if t.typed[ck].SetView? then Ok(t.typed[ck].members) else Err(ClassCast)
  {
    if ck in t.typed then
      if t.typed[ck].SetView? then Read(Ok(t.typed[ck].members), t) else Read(Err(ClassCast), t)
    else
      match fetched
      case Err(e) => Read(Err(e), t)
      case Ok(ms) =>
        match DecodeSet(ms, cls, g)
        case Err(e) => Read(Err(e), t)
        case Ok(vs) => Read(Ok(vs), Tiers(t.raw, t.typed[ck := SetView(vs)]))
  }

  function ListViewRead(t: Tiers, ck: string, fetched: Result<seq<string>>, cls: ClassName, g: Gson): (r: Read<seq<Option<Obj>>>)
    ensures r.after.raw == t.raw && r.after.typed - {ck} == t.typed - {ck}
    ensures r.value.Ok? ==> ck in r.after.typed && r.after.typed[ck] == ListView(r.value.value)
    ensures r.value.Err? ==> r.after == t
    ensures ck in t.typed ==> r.value == if t.typed[ck].ListView? then Ok(t.typed[ck].items) else Err(ClassCast)
  {
    if ck in t.typed then
      if t.typed[ck].ListView? then Read(Ok(t.typed[ck].items), t) else Read(Err(ClassCast), t)
    else
      match fetched
      case Err(e) => Read(Err(e), t)
      case Ok(js) =>
        match DecodeSeq(js, cls, g)
        case Err(e) => Read(Err(e), t)
        case Ok(vs) => Read(Ok(vs), Tiers(t.raw, t.typed[ck := ListView(vs)]))
  }

  /** `lIndex`: a cached element, else the store's element decoded and cached; a missing element is not cached. */
  function IndexRead(t: Tiers, ck: string, fetched: Result<Option<string>>, cls: ClassName, g: Gson): (r: Read<Option<Obj>>)
    ensures r.after.raw == t.raw && r.after.typed - {ck} == t.typed - {ck}
    ensures r.value.Ok? && r.value.value.Some? ==> ck in r.after.typed && r.after.typed[ck] == Single(r.value.value.value)
    ensures r.value.Err? || r.value == Ok(None) ==> r.after == t
  {
    if ck in t.typed then
      if t.typed[ck].Single? then Read(Ok(Some(t.typed[ck].obj)), t) else Read(Err(ClassCast), t)
    else
      match fetched
      case Err(e) => Read(Err(e), t)
      case Ok(None) => Read(Ok(None), t)
      case Ok(Some(j)) =>
        match g.fromJson(j, cls)
        case Threw => Read(Err(DecodeFailed), t)
        case Null => Read(Err(NullValue), t)
        case Parsed(o) => Read(Ok(Some(o)), Tiers(t.raw, t.typed[ck := Single(o)]))
  }

  /** A list view just read is served again whatever the store says now. */
  lemma ListViewRepeats(t: Tiers, ck: string, f1: Result<seq<string>>, f2: Result<seq<string>>, cls: ClassName, g: Gson)
    requires ListViewRead(t, ck, f1, cls, g).value.Ok?
    ensures var first := ListViewRead(t, ck, f1, cls, g);
            ListViewRead(first.after, ck, f2, cls, g) == first
  {
  }

  /** A set view just read is served again whatever the store says now. */
  lemma SetViewRepeats(t: Tiers, ck: string, f1: Result<set<string>>, f2: Result<set<string>>, cls: ClassName, g: Gson)
    requires SetViewRead(t, ck, f1, cls, g).value.Ok?
    ensures var first := SetViewRead(t, ck, f1, cls, g);
            SetViewRead(first.after, ck, f2, cls, g) == first
  {
  }

  /** Once the prefix covering a list view is invalidated, the view is rebuilt from the store. */
  lemma ListViewAfterInvalidation(t: Tiers, ck: string, p: string, f: Result<seq<string>>, cls: ClassName, g: Gson)
    requires StartsWith(ck, p)
    ensures ListViewRead(PrefixInvalidated(t, p), ck, f, cls, g).value ==
              if f.Err? then Err(f.error) else DecodeSeq(f.value, cls, g)
  {
  }

  /** Once the prefix covering a set view is invalidated, the view is rebuilt from the store. */
  lemma SetViewAfterInvalidation(t: Tiers, ck: string, p: string, f: Result<set<string>>, cls: ClassName, g: Gson)
    requires StartsWith(ck, p)
    ensures SetViewRead(PrefixInvalidated(t, p), ck, f, cls, g).value ==
              if f.Err? then Err(f.error) else DecodeSet(f.value, cls, g)
  {
  }
}
