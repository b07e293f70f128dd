/** Which `Gson` a factory hands to the cache it creates. */
module GsonSetup {
  import opened Wrappers
  import opened Jvm

  /**
   * A caller's own instance, or one made by a `GsonBuilder` with these
   * switches (`dateFormat` None: the builder's default format).
   */
  datatype GsonChoice =
    | CustomGson(gson: Gson)
    | BuiltGson(prettyPrinting: bool, serializeNulls: bool, dateFormat: Option<string>, escapeHtml: bool)

  /** A connection pool, executor or scheduler the caller supplies, known by identity. */
  type Handle = nat
}
