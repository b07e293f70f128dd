/**
 * `SedisResult`: the text the store returned for a request, shared by
 * every caller of the pool, with the objects decoded from it cached per
 * class.
 */
module Results {
  import opened Wrappers
  import opened Jvm
  import opened Requests

  /** `asNew(c)`: empty when absent, else a fresh decode; `Optional.of` refuses a null. */
  function Fresh(value: Option<string>, cls: ClassName, g: Gson): (r: Result<Option<Obj>>)
    ensures value.None? ==> r == Ok(None)
    ensures value.Some? ==> (r.Ok? <==> g.fromJson(value.value, cls).Parsed?)
    ensures r.Ok? && value.Some? ==> r.value == Some(g.fromJson(value.value, cls).obj)
  {
    if value.None? then Ok(None)
    else
      match g.fromJson(value.value, cls)
      case Threw => Err(DecodeFailed)
      case Null => Err(NullValue)
      case Parsed(o) => Ok(Some(o))
  }

  /** What `as(c)` returns and the per-class cache it leaves. */
  datatype AsReply = AsReply(value: Result<Option<Obj>>, cache: map<ClassName, Obj>)

  /**
   * `as(c)` as written: the cache is filled with what `asNew` returns,
   * the `Optional` wrapper, and that wrapper is then cast to `c`.
   */
  function AsWritten(cache: map<ClassName, Obj>, value: Option<string>, cls: ClassName, g: Gson): (r: AsReply)
    ensures value.None? ==> r == AsReply(Ok(None), cache)
  {
    if value.None? then AsReply(Ok(None), cache)
    else if cls in cache then
      AsReply(if IsInstance(cache[cls], cls) then Ok(Some(cache[cls])) else Err(ClassCast), cache)
    else
      match Fresh(value, cls, g)
      case Err(e) => AsReply(Err(e), cache)
      case Ok(o) =>
        var wrapper := OptionalOf(o.value);
        AsReply(if IsInstance(wrapper, cls) then Ok(Some(wrapper)) else Err(ClassCast), cache[cls := wrapper])
  }

  /** As written, `as(c)` yields nothing for any class an `Optional` is not an instance of. */
  lemma AsWrittenNeverYields(cache: map<ClassName, Obj>, value: Option<string>, cls: ClassName, g: Gson)
    requires cls != OPTIONAL_CLASS && cls != OBJECT_CLASS
    requires forall c | c in cache :: cache[c].cls == OPTIONAL_CLASS && cache[c].supers == {OBJECT_CLASS}
    ensures AsWritten(cache, value, cls, g).value.Ok? ==> AsWritten(cache, value, cls, g).value == Ok(None)
  {
  }

  /** A string that decodes fine, read through `as(String.class)`, throws ClassCastException. */
  lemma AsWrittenStringThrows()
    ensures var g := Gson((o: Obj) => o.state, (j: string, c: ClassName) => Parsed(StringObj(j)));
            Fresh(Some("x"), STRING_CLASS, g) == Ok(Some(StringObj("x"))) &&
            AsWritten(map[], Some("x"), STRING_CLASS, g).value == Err(ClassCast)
  {
    var g := Gson((o: Obj) => o.state, (j: string, c: ClassName) => Parsed(StringObj(j)));
    assert !IsInstance(OptionalOf(StringObj("x")), STRING_CLASS);
  }

  /** `as(c)` corrected: the decoded object is cached, so a second call returns the same object. */
  function CachedAs(cache: map<ClassName, Obj>, value: Option<string>, cls: ClassName, g: Gson): (r: AsReply)
    ensures value.None? ==> r == AsReply(Ok(None), cache)
    ensures r.cache - {cls} == cache - {cls}
    ensures cls in cache && value.Some? ==> r.cache == cache
  {
    if value.None? then AsReply(Ok(None), cache)
    else if cls in cache then
      AsReply(if IsInstance(cache[cls], cls) then Ok(Some(cache[cls])) else Err(ClassCast), cache)
    else
      match Fresh(value, cls, g)
      case Err(e) => AsReply(Err(e), cache)
      case Ok(o) =>
        AsReply(if IsInstance(o.value, cls) then Ok(Some(o.value)) else Err(ClassCast), cache[cls := o.value])
  }

  /** Every object cached for class `c` is what `value` decodes to as `c`. */
  ghost predicate Decodings(cache: map<ClassName, Obj>, value: Option<string>, g: Gson)
  {
    (value.None? ==> cache == map[]) &&
    (value.Some? ==> forall c | c in cache :: g.fromJson(value.value, c) == Parsed(cache[c]))
  }

  /** `as(c)` keeps the cache a set of decodings of the value and answers what a fresh decode would. */
  lemma AsAgreesWithFresh(cache: map<ClassName, Obj>, value: Option<string>, cls: ClassName, g: Gson)
    requires Decodings(cache, value, g)
    ensures var r := CachedAs(cache, value, cls, g);
            Decodings(r.cache, value, g) &&
            (Fresh(value, cls, g).Err? ==> r.value == Fresh(value, cls, g)) &&
            (Fresh(value, cls, g).Ok? && r.value.Ok? ==> r.value == Fresh(value, cls, g))
  {
  }

  /** Once `as(c)` has decoded, later calls return the same object whatever the codec does. */
  lemma {:induction false} AsDecodesOnce(cache: map<ClassName, Obj>, value: Option<string>, cls: ClassName, g1: Gson, g2: Gson)
    requires CachedAs(cache, value, cls, g1).value.Ok?
    ensures var first := CachedAs(cache, value, cls, g1);
            CachedAs(first.cache, value, cls, g2) == first
  {
    var first := CachedAs(cache, value, cls, g1);
    if value.Some? {
      assert cls in first.cache;
    }
  }

  class SedisResult {
    const request: ValueRequest
    const gson: Gson
    var value: Option<string>
    /** The per-class `cache` of decoded objects. */
    var cache: map<ClassName, Obj>

    ghost predicate Valid()
      reads this
    {
      Decodings(cache, value, gson)
    }

    constructor(request: ValueRequest, value: Option<string>, gson: Gson)
      ensures Valid()
      ensures this.request == request && this.value == value && this.gson == gson && cache == map[]
    {
      this.request := request;
      this.value := value;
      this.gson := gson;
      cache := map[];
    }

    predicate IsPresent()
      reads this
    {
      value.Some?
    }

    method AsString() returns (r: Option<string>)
      ensures r.Some? <==> IsPresent()
      ensures r.Some? ==> r == value
    {
      r := value;
    }

    method As(cls: ClassName) returns (r: Result<Option<Obj>>)
      requires Valid()
      modifies this
      ensures Valid() && value == old(value)
      ensures AsReply(r, cache) == CachedAs(old(cache), value, cls, gson)
    {
      AsAgreesWithFresh(cache, value, cls, gson);
      if value.None? {
        return Ok(None);
      }
      if cls !in cache {
        var d := gson.fromJson(value.value, cls);
        if d.Threw? {
          return Err(DecodeFailed);
        } else if d.Null? {
          return Err(NullValue);
        }
        cache := cache[cls := d.obj];
      }
      var o := cache[cls];
      r := if IsInstance(o, cls) then Ok(Some(o)) else Err(ClassCast);
    }

    method AsNew(cls: ClassName) returns (r: Result<Option<Obj>>)
      ensures value.None? ==> r == Ok(None)
      ensures value.Some? ==> (r.Ok? <==> gson.fromJson(value.value, cls).Parsed?)
      ensures r.Ok? && value.Some? ==> r.value == Some(gson.fromJson(value.value, cls).obj)
    {
      if value.None? {
        return Ok(None);
      }
      var d := gson.fromJson(value.value, cls);
      match d {
        case Threw => r := Err(DecodeFailed);
        case Null => r := Err(NullValue);
        case Parsed(o) => r := Ok(Some(o));
      }
    }

    /** `clear()`: forgets the value and every decoded object. */
    method Clear()
      modifies this
      ensures Valid() && !IsPresent() && cache == map[]
    {
      cache := map[];
      value := None;
    }
  }

  /** A cleared result is absent and `as` answers empty for every class. */
  method ClearThenAs(res: SedisResult, cls: ClassName) returns (r: Result<Option<Obj>>, s: Option<string>)
    modifies res
    ensures r == Ok(None) && s == None
  {
    res.Clear();
    r := res.As(cls);
    s := res.AsString();
  }
}
