/**
 * `LocalSedisCacheBuilder`: connection, pool, thread and JSON settings
 * for a `LocalSedisCache`; `build` uses each supplied component and
 * creates the missing ones from the settings. Durations are in
 * milliseconds.
 */
module Builder {
  import opened Wrappers
  import opened JavaString
  import opened Jvm
  import opened GsonSetup

  const MAX_DATABASE: int32 := 15

  /** Every field of the builder at one moment. */
  datatype Settings = Settings(
    host: string, port: int32, password: Option<string>, database: int32, timeout: int,
    maxTotal: int32, maxIdle: int32, minIdle: int32,
    testOnBorrow: bool, testOnReturn: bool, testWhileIdle: bool,
    timeBetweenEvictionRuns: int, numTestsPerEvictionRun: int32,
    minEvictableIdleTime: int, softMinEvictableIdleTime: int,
    blockWhenExhausted: bool, maxWaitTime: int,
    schedulerThreads: int32, executorThreads: int32, threadNamePrefix: string,
    gson: Option<Gson>, prettyPrintJson: bool, serializeNulls: bool,
    customScheduler: Option<Handle>, customExecutor: Option<Handle>, customJedisPool: Option<Handle>)

  /** The builder's field initialisers. */
  const DEFAULTS: Settings := Settings(
    "localhost", 6379, None, 0, 2000,
    8, 8, 0,
    true, false, false,
    30_000, 3,
    60_000, 60_000,
    true, 2000,
    2, 4, "sedis-cache",
    None, false, false,
    None, None, None)

  /** The `JedisPoolConfig` `createJedisPool` fills in. */
  datatype PoolConfig = PoolConfig(
    maxTotal: int32, maxIdle: int32, minIdle: int32,
    testOnBorrow: bool, testOnReturn: bool, testWhileIdle: bool,
    timeBetweenEvictionRuns: int, numTestsPerEvictionRun: int32,
    minEvictableIdleTime: int, softMinEvictableIdleTime: int,
    blockWhenExhausted: bool, maxWait: int)

  datatype PoolChoice =
    | SuppliedPool(pool: Handle)
    | NewPool(config: PoolConfig, host: string, port: int32, timeoutMillis: int32, password: Option<string>, database: int32)

  /** A supplied executor, or a fixed pool of daemon threads named `namePrefix` + thread id. */
  datatype ThreadsChoice =
    | SuppliedThreads(executor: Handle)
    | NewThreads(threads: int32, namePrefix: string, daemon: bool)

  /** The four arguments `build` passes to the `LocalSedisCache` constructor. */
  datatype Built = Built(scheduler: ThreadsChoice, executor: ThreadsChoice, pool: PoolChoice, gson: GsonChoice)

  class LocalSedisCacheBuilder {
    var host: string
    var port: int32
    var password: Option<string>
    var database: int32
    var timeout: int
    var maxTotal: int32
    var maxIdle: int32
    var minIdle: int32
    var testOnBorrow: bool
    var testOnReturn: bool
    var testWhileIdle: bool
    var timeBetweenEvictionRuns: int
    var numTestsPerEvictionRun: int32
    var minEvictableIdleTime: int
    var softMinEvictableIdleTime: int
    var blockWhenExhausted: bool
    var maxWaitTime: int
    var schedulerThreads: int32
    var executorThreads: int32
    var threadNamePrefix: string
    var gson: Option<Gson>
    var prettyPrintJson: bool
    var serializeNulls: bool
    var customScheduler: Option<Handle>
    var customExecutor: Option<Handle>
    var customJedisPool: Option<Handle>

    function Current(): Settings
      reads this
    {
      Settings(host, port, password, database, timeout, maxTotal, maxIdle, minIdle,
               testOnBorrow, testOnReturn, testWhileIdle, timeBetweenEvictionRuns, numTestsPerEvictionRun,
               minEvictableIdleTime, softMinEvictableIdleTime, blockWhenExhausted, maxWaitTime,
               schedulerThreads, executorThreads, threadNamePrefix, gson, prettyPrintJson, serializeNulls,
               customScheduler, customExecutor, customJedisPool)
    }

    /** What the validating setters keep: database 0..15 and at least one thread of each kind. */
    predicate Valid()
      reads this
    {
      0 <= database <= MAX_DATABASE && schedulerThreads >= 1 && executorThreads >= 1
    }

    /** `builder()`. */
    constructor()
      ensures Valid() && Current() == DEFAULTS
    {
      host := "localhost";
      port := 6379;
      password := None;
      database := 0;
      timeout := 2000;
      maxTotal := 8;
      maxIdle := 8;
      minIdle := 0;
      testOnBorrow := true;
      testOnReturn := false;
      testWhileIdle := false;
      timeBetweenEvictionRuns := 30_000;
      numTestsPerEvictionRun := 3;
      minEvictableIdleTime := 60_000;
      softMinEvictableIdleTime := 60_000;
      blockWhenExhausted := true;
      maxWaitTime := 2000;
      schedulerThreads := 2;
      executorThreads := 4;
      threadNamePrefix := "sedis-cache";
      gson := None;
      prettyPrintJson := false;
      serializeNulls := false;
      customScheduler := None;
      customExecutor := None;
      customJedisPool := None;
    }

    /** `forAddress`: no check on either value. */
    method ForAddress(h: string, p: int32)
      requires Valid()
      modifies this
      ensures Valid() && Current() == old(Current()).(host := h, port := p)
    {
      host := h;
      port := p;
    }

    method ForHost(h: string)
      requires Valid()
      modifies this
      ensures Valid() && Current() == old(Current()).(host := h)
    {
      host := h;
    }

    method WithPort(p: int32)
      requires Valid()
      modifies this
      ensures Valid() && Current() == old(Current()).(port := p)
    {
      port := p;
    }

    method WithPassword(pw: string)
      requires Valid()
      modifies this
      ensures Valid() && Current() == old(Current()).(password := Some(pw))
    {
      password := Some(pw);
    }

    /** `withDatabase`: accepts exactly 0..15 and otherwise changes nothing. */
    method WithDatabase(d: int32) returns (r: Outcome)
      requires Valid()
      modifies this
      ensures Valid()
      ensures r == (if 0 <= d <= MAX_DATABASE then Pass else Fail(IllegalArgument))
      ensures Current() == if r.Pass? then old(Current()).(database := d) else old(Current())
    {
      if d < 0 || d > MAX_DATABASE {
        return Fail(IllegalArgument);
      }
      database := d;
      r := Pass;
    }

    method WithTimeout(millis: int)
      requires Valid()
      modifies this
      ensures Valid() && Current() == old(Current()).(timeout := millis)
    {
      timeout := millis;
    }

    /** `withMaxConnections(n)`: both `maxTotal` and `maxIdle` become `n`. */
    method WithMaxConnections(n: int32)
      requires Valid()
      modifies this
      ensures Valid() && Current() == old(Current()).(maxTotal := n, maxIdle := n)
    {
      maxTotal := n;
      maxIdle := n;
    }

    method WithMaxTotal(n: int32)
      requires Valid()
      modifies this
      ensures Valid() && Current() == old(Current()).(maxTotal := n)
    {
      maxTotal := n;
    }

    method WithMaxIdle(n: int32)
      requires Valid()
      modifies this
      ensures Valid() && Current() == old(Current()).(maxIdle := n)
    {
      maxIdle := n;
    }

    method WithMinIdle(n: int32)
      requires Valid()
      modifies this
      ensures Valid() && Current() == old(Current()).(minIdle := n)
    {
      minIdle := n;
    }

    method WithTestOnBorrow(b: bool)
      requires Valid()
      modifies this
      ensures Valid() && Current() == old(Current()).(testOnBorrow := b)
    {
      testOnBorrow := b;
    }

    method WithTestOnReturn(b: bool)
      requires Valid()
      modifies this
      ensures Valid() && Current() == old(Current()).(testOnReturn := b)
    {
      testOnReturn := b;
    }

    method WithTestWhileIdle(b: bool)
      requires Valid()
      modifies this
      ensures Valid() && Current() == old(Current()).(testWhileIdle := b)
    {
      testWhileIdle := b;
    }

    method WithTimeBetweenEvictionRuns(millis: int)
      requires Valid()
      modifies this
      ensures Valid() && Current() == old(Current()).(timeBetweenEvictionRuns := millis)
    {
      timeBetweenEvictionRuns := millis;
    }

    method WithMinEvictableIdleTime(millis: int)
      requires Valid()
      modifies this
      ensures Valid() && Current() == old(Current()).(minEvictableIdleTime := millis)
    {
      minEvictableIdleTime := millis;
    }

    method WithBlockWhenExhausted(b: bool)
      requires Valid()
      modifies this
      ensures Valid() && Current() == old(Current()).(blockWhenExhausted := b)
    {
      blockWhenExhausted := b;
    }

    method WithMaxWaitTime(millis: int)
      requires Valid()
      modifies this
      ensures Valid() && Current() == old(Current()).(maxWaitTime := millis)
    {
      maxWaitTime := millis;
    }

    /** `withSchedulerThreads`: at least one thread, otherwise nothing changes. */
    method WithSchedulerThreads(n: int32) returns (r: Outcome)
      requires Valid()
      modifies this
      ensures Valid()
      ensures r == (if n >= 1 then Pass else Fail(IllegalArgument))
      ensures Current() == if r.Pass? then old(Current()).(schedulerThreads := n) else old(Current())
    {
      if n < 1 {
        return Fail(IllegalArgument);
      }
      schedulerThreads := n;
      r := Pass;
    }

    /** `withExecutorThreads`: at least one thread, otherwise nothing changes. */
    method WithExecutorThreads(n: int32) returns (r: Outcome)
      requires Valid()
      modifies this
      ensures Valid()
      ensures r == (if n >= 1 then Pass else Fail(IllegalArgument))
      ensures Current() == if r.Pass? then old(Current()).(executorThreads := n) else old(Current())
    {
      if n < 1 {
        return Fail(IllegalArgument);
      }
      executorThreads := n;
      r := Pass;
    }

    method WithThreadNamePrefix(prefix: string)
      requires Valid()
      modifies this
      ensures Valid() && Current() == old(Current()).(threadNamePrefix := prefix)
    {
      threadNamePrefix := prefix;
    }

    method WithPrettyJson()
      requires Valid()
      modifies this
      ensures Valid() && Current() == old(Current()).(prettyPrintJson := true)
    {
      prettyPrintJson := true;
    }

    method WithSerializeNulls()
      requires Valid()
      modifies this
      ensures Valid() && Current() == old(Current()).(serializeNulls := true)
    {
      serializeNulls := true;
    }

    method WithGson(g: Gson)
      requires Valid()
      modifies this
      ensures Valid() && Current() == old(Current()).(gson := Some(g))
    {
      gson := Some(g);
    }

    method WithCustomScheduler(s: Handle)
      requires Valid()
      modifies this
      ensures Valid() && Current() == old(Current()).(customScheduler := Some(s))
    {
      customScheduler := Some(s);
    }

    method WithCustomExecutor(e: Handle)
      requires Valid()
      modifies this
      ensures Valid() && Current() == old(Current()).(customExecutor := Some(e))
    {
      customExecutor := Some(e);
    }

    method WithCustomJedisPool(p: Handle)
      requires Valid()
      modifies this
      ensures Valid() && Current() == old(Current()).(customJedisPool := Some(p))
    {
      customJedisPool := Some(p);
    }

    /**
     * `build`: each supplied scheduler, executor, pool or Gson is used as
     * it is; a missing one is created from the settings, the pool with
     * the timeout narrowed to an `int`.
     */
    method Build() returns (b: Built)
      ensures b.scheduler == if customScheduler.Some? then SuppliedThreads(customScheduler.value)
                             else NewThreads(schedulerThreads, threadNamePrefix + "-scheduler-", true)
      ensures b.executor == if customExecutor.Some? then SuppliedThreads(customExecutor.value)
                            else NewThreads(executorThreads, threadNamePrefix + "-executor-", true)
      ensures customJedisPool.Some? ==> b.pool == SuppliedPool(customJedisPool.value)
      ensures customJedisPool.None? ==>
                b.pool.NewPool? && b.pool.host == host && b.pool.port == port && b.pool.password == password &&
                b.pool.database == database && (b.pool.timeoutMillis as int - timeout) % 0x1_0000_0000 == 0 &&
                b.pool.config == PoolConfig(maxTotal, maxIdle, minIdle, testOnBorrow, testOnReturn, testWhileIdle,
                                            timeBetweenEvictionRuns, numTestsPerEvictionRun, minEvictableIdleTime,
                                            softMinEvictableIdleTime, blockWhenExhausted, maxWaitTime)
      ensures customJedisPool.None? && -0x8000_0000 <= timeout < 0x8000_0000 ==> b.pool.timeoutMillis as int == timeout
      ensures gson.Some? ==> b.gson == CustomGson(gson.value)
      ensures gson.None? ==> b.gson == BuiltGson(prettyPrintJson, serializeNulls, None, true)
    {
      var scheduler := if customScheduler.Some? then SuppliedThreads(customScheduler.value)
                       else NewThreads(schedulerThreads, threadNamePrefix + "-scheduler-", true);
      var executor := if customExecutor.Some? then SuppliedThreads(customExecutor.value)
                      else NewThreads(executorThreads, threadNamePrefix + "-executor-", true);
      var pool: PoolChoice;
      if customJedisPool.Some? {
        pool := SuppliedPool(customJedisPool.value);
      } else {
        pool := CreateJedisPool();
      }
      var g: GsonChoice;
      if gson.Some? {
        g := CustomGson(gson.value);
      } else {
        g := CreateGson();
      }
      b := Built(scheduler, executor, pool, g);
    }

    /** `createJedisPool`: a new pool over every pool setting and the connection settings. */
    method CreateJedisPool() returns (p: PoolChoice)
      ensures p.NewPool? && p.host == host && p.port == port && p.password == password && p.database == database
      ensures (p.timeoutMillis as int - timeout) % 0x1_0000_0000 == 0
      ensures -0x8000_0000 <= timeout < 0x8000_0000 ==> p.timeoutMillis as int == timeout
      ensures p.config == PoolConfig(maxTotal, maxIdle, minIdle, testOnBorrow, testOnReturn, testWhileIdle,
                                     timeBetweenEvictionRuns, numTestsPerEvictionRun, minEvictableIdleTime,
                                     softMinEvictableIdleTime, blockWhenExhausted, maxWaitTime)
    {
      var config := PoolConfig(maxTotal, maxIdle, minIdle, testOnBorrow, testOnReturn, testWhileIdle,
                               timeBetweenEvictionRuns, numTestsPerEvictionRun, minEvictableIdleTime,
                               softMinEvictableIdleTime, blockWhenExhausted, maxWaitTime);
      p := NewPool(config, host, port, IntValue(timeout), password, database);
    }

    /** `createGson`: pretty printing and null serialisation exactly when their flags are set. */
    method CreateGson() returns (g: GsonChoice)
      ensures g.BuiltGson? && g.dateFormat.None? && g.escapeHtml
      ensures g.prettyPrinting <==> prettyPrintJson
      ensures g.serializeNulls <==> serializeNulls
    {
      g := BuiltGson(prettyPrintJson, serializeNulls, None, true);
    }
  }

  /** A builder left at its defaults builds a pool for localhost:6379, database 0, and its own threads. */
  method DefaultBuild() returns (b: Built)
    ensures b.scheduler == NewThreads(2, "sedis-cache-scheduler-", true)
    ensures b.executor == NewThreads(4, "sedis-cache-executor-", true)
    ensures b.pool.NewPool? && b.pool.host == "localhost" && b.pool.port == 6379 && b.pool.database == 0
    ensures b.pool.timeoutMillis == 2000 && b.pool.password == None
    ensures b.pool.config.maxTotal == 8 && b.pool.config.maxIdle == 8 && b.pool.config.minIdle == 0
    ensures b.gson == BuiltGson(false, false, None, true)
  {
    var builder := new LocalSedisCacheBuilder();
    b := builder.Build();
  }

  /** A refused database index leaves the one that `build` uses as it was. */
  method RefusedDatabaseKept(d: int32) returns (r: Outcome, b: Built)
    requires d < 0 || d > MAX_DATABASE
    ensures r == Fail(IllegalArgument)
    ensures b.pool.NewPool? && b.pool.database == 0
  {
    var builder := new LocalSedisCacheBuilder();
    r := builder.WithDatabase(d);
    b := builder.Build();
  }
}
