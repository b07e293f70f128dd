/**
 * `LocalRedisCacheCreator`: a fluent factory that checks host and port as
 * they are set and, on `create`, picks one of the three `LocalRedisCache`
 * constructors.
 */
module Creator {
  import opened Wrappers
  import opened JavaString
  import opened Jvm
  import opened GsonSetup

  const DEFAULT_HOST: string := "localhost"
  const DEFAULT_PORT: int32 := 6379
  const MIN_PORT: int32 := 1
  const MAX_PORT: int32 := 65535

  /** `createDefaultGson`: nulls serialised, an ISO-8601 date format, no HTML escaping. */
  const DEFAULT_GSON: GsonChoice := BuiltGson(false, true, Some("yyyy-MM-dd'T'HH:mm:ss.SSSZ"), false)

  /** The `LocalRedisCache` constructor `create` calls, with its arguments. */
  datatype Construction =
    | WithPool(pool: Handle, gson: GsonChoice)
    | Secured(host: string, port: int32, password: string)
    | Plain(host: string, port: int32)

  class LocalRedisCacheCreator {
    var host: string
    var port: int32
    var password: Option<string>
    var pool: Option<Handle>
    var gson: Option<Gson>

    /** What the setters keep: a host that is not blank after `trim` and a port in 1..65535. */
    predicate Valid()
      reads this
    {
      !AllTrimmed(host) && MIN_PORT <= port <= MAX_PORT
    }

    /** `defaultBuilder()`. */
    constructor()
      ensures Valid()
      ensures host == DEFAULT_HOST && port == DEFAULT_PORT && password == None && pool == None && gson == None
    {
      host := DEFAULT_HOST;
      port := DEFAULT_PORT;
      password := None;
      pool := None;
      gson := None;
      assert !IsTrimmed(DEFAULT_HOST[0]);
    }

    /** `withHost`: refuses a host that `trim` empties, and then keeps the old one. */
    method WithHost(h: string) returns (r: Outcome)
      requires Valid()
      modifies this
      ensures Valid()
      ensures r == (if AllTrimmed(h) then Fail(IllegalArgument) else Pass)
      ensures host == (if r.Pass? then h else old(host))
      ensures port == old(port) && password == old(password) && pool == old(pool) && gson == old(gson)
    {
      TrimEmptyIffAllBlank(h);
      if Trim(h) == [] {
        return Fail(IllegalArgument);
      }
      host := h;
      r := Pass;
    }

    /** `withPort`: accepts exactly 1..65535 and otherwise keeps the old port. */
    method WithPort(p: int32) returns (r: Outcome)
      requires Valid()
      modifies this
      ensures Valid()
      ensures r == (if MIN_PORT <= p <= MAX_PORT then Pass else Fail(IllegalArgument))
      ensures port == (if r.Pass? then p else old(port))
      ensures host == old(host) && password == old(password) && pool == old(pool) && gson == old(gson)
    {
      if p < MIN_PORT || p > MAX_PORT {
        return Fail(IllegalArgument);
      }
      port := p;
      r := Pass;
    }

    method WithPassword(pw: string)
      requires Valid()
      modifies this
      ensures Valid()
      ensures password == Some(pw)
      ensures host == old(host) && port == old(port) && pool == old(pool) && gson == old(gson)
    {
      password := Some(pw);
    }

    method WithJedisPool(p: Handle)
      requires Valid()
      modifies this
      ensures Valid()
      ensures pool == Some(p)
      ensures host == old(host) && port == old(port) && password == old(password) && gson == old(gson)
    {
      pool := Some(p);
    }

    method WithGson(g: Gson)
      requires Valid()
      modifies this
      ensures Valid()
      ensures gson == Some(g)
      ensures host == old(host) && port == old(port) && password == old(password) && pool == old(pool)
    {
      gson := Some(g);
    }

    /**
     * `create`: a pool wins over host and password and takes the custom
     * Gson or the default one; without a pool a blank host is refused, a
     * password selects the secured constructor, and a custom Gson is not
     * passed on.
     */
    method Create() returns (r: Result<Construction>)
      ensures pool.Some? ==>
                r == Ok(WithPool(pool.value, if gson.Some? then CustomGson(gson.value) else DEFAULT_GSON))
      ensures pool.None? && AllTrimmed(host) ==> r == Err(IllegalState)
      ensures pool.None? && !AllTrimmed(host) && password.Some? ==> r == Ok(Secured(host, port, password.value))
      ensures pool.None? && !AllTrimmed(host) && password.None? ==> r == Ok(Plain(host, port))
      ensures Valid() ==> r.Ok?
    {
      var checked := ValidateConfiguration();
      if checked.Fail? {
        return Err(checked.error);
      }
      if pool.Some? {
        var g := if gson.Some? then CustomGson(gson.value) else DEFAULT_GSON;
        return Ok(WithPool(pool.value, g));
      } else if password.Some? {
        return Ok(Secured(host, port, password.value));
      }
      r := Ok(Plain(host, port));
    }

    /** `validateConfiguration`: skipped with a pool; otherwise the host must not be blank. */
    method ValidateConfiguration() returns (r: Outcome)
      ensures r == (if pool.None? && AllTrimmed(host) then Fail(IllegalState) else Pass)
    {
      if pool.Some? {
        return Pass;
      }
      TrimEmptyIffAllBlank(host);
      if Trim(host) == [] {
        return Fail(IllegalState);
      }
      r := Pass;
    }
  }

  /** `forAddress(host, port)`: `withHost`, then `withPort`; the first refusal escapes. */
  method ForAddress(h: string, p: int32) returns (r: Result<LocalRedisCacheCreator>)
    ensures r.Ok? <==> !AllTrimmed(h) && MIN_PORT <= p <= MAX_PORT
    ensures r.Err? ==> r.error == IllegalArgument
    ensures r.Ok? ==> fresh(r.value) && r.value.Valid() && r.value.host == h && r.value.port == p &&
                      r.value.password == None && r.value.pool == None && r.value.gson == None
  {
    var c := new LocalRedisCacheCreator();
    var o := c.WithHost(h);
    if o.Fail? {
      return Err(o.error);
    }
    o := c.WithPort(p);
    if o.Fail? {
      return Err(o.error);
    }
    r := Ok(c);
  }

  /** `withExistingPool(pool)`. */
  method WithExistingPool(p: Handle) returns (c: LocalRedisCacheCreator)
    ensures fresh(c) && c.Valid() && c.pool == Some(p)
    ensures c.host == DEFAULT_HOST && c.port == DEFAULT_PORT && c.password == None && c.gson == None
  {
    c := new LocalRedisCacheCreator();
    c.WithJedisPool(p);
  }

  /** `forSecuredInstance(host, port, password)`: `forAddress`, then `withPassword`. */
  method ForSecuredInstance(h: string, p: int32, pw: string) returns (r: Result<LocalRedisCacheCreator>)
    ensures r.Ok? <==> !AllTrimmed(h) && MIN_PORT <= p <= MAX_PORT
    ensures r.Err? ==> r.error == IllegalArgument
    ensures r.Ok? ==> fresh(r.value) && r.value.Valid() && r.value.host == h && r.value.port == p &&
                      r.value.password == Some(pw) && r.value.pool == None && r.value.gson == None
  {
    r := ForAddress(h, p);
    if r.Ok? {
      r.value.WithPassword(pw);
    }
  }

  /** With no settings, `create` calls the plain constructor for localhost:6379. */
  method DefaultCreate() returns (r: Result<Construction>)
    ensures r == Ok(Plain(DEFAULT_HOST, DEFAULT_PORT))
  {
    var c := new LocalRedisCacheCreator();
    r := c.Create();
  }

  /** A pool makes `create` ignore a password and a host set before it. */
  method PoolOverridesAddress(h: string, p: int32, pw: string, pool: Handle) returns (r: Result<Construction>)
    requires !AllTrimmed(h) && MIN_PORT <= p <= MAX_PORT
    ensures r == Ok(WithPool(pool, DEFAULT_GSON))
  {
    var c := ForSecuredInstance(h, p, pw);
    c.value.WithJedisPool(pool);
    r := c.value.Create();
  }
}
