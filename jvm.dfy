/** Java objects and the Gson codec, kept abstract. */
module Jvm {
  import opened Wrappers

  /** A fully qualified Java class name, as `Class.getName()` returns it. */
  type ClassName = string

  /**
   * A Java object: its runtime class, the classes and interfaces it is
   * also an instance of, and an opaque stand-in for its field values.
   */
  datatype Obj = Obj(cls: ClassName, supers: set<ClassName>, state: string)

  /** `c.isInstance(o)`, the test behind `Class.cast`. */
  predicate IsInstance(o: Obj, c: ClassName)
  {
    c == o.cls || c in o.supers
  }

  const STRING_CLASS: ClassName := "java.lang.String"
  const OBJECT_CLASS: ClassName := "java.lang.Object"
  const OPTIONAL_CLASS: ClassName := "java.util.Optional"

  /** A `java.lang.String` holding `s`. */
  function StringObj(s: string): (o: Obj)
    ensures IsInstance(o, STRING_CLASS) && IsInstance(o, OBJECT_CLASS)
  {
    Obj(STRING_CLASS, {OBJECT_CLASS, "java.lang.CharSequence", "java.lang.Comparable", "java.io.Serializable"}, s)
  }

  /** The `Optional` object that `Optional.of(v)` allocates. */
  function OptionalOf(v: Obj): (o: Obj)
    ensures IsInstance(o, OPTIONAL_CLASS) && !IsInstance(o, STRING_CLASS)
  {
    Obj(OPTIONAL_CLASS, {OBJECT_CLASS}, v.state)
  }

  /** What `gson.fromJson` does with one text: throw, yield `null`, or yield an object. */
  datatype Decoded = Threw | Null | Parsed(obj: Obj)
  {
    /** The Java reference the call leaves behind, `null` as `None`. */
    function Ref(): Option<Obj>
    {
      if Parsed? then Some(obj) else None
    }
  }

  /**
   * A Gson instance, uninterpreted: `toJson` serialises an object and
   * `fromJson(json, c)` deserialises to class `c`. No law relates the two.
   */
  datatype Gson = Gson(toJson: Obj -> string, fromJson: (string, ClassName) -> Decoded)
  {
    /** The JSON text of a Java string, as `gson.toJson(s)` produces it. */
    function EncodeString(s: string): string
    {
      toJson(StringObj(s))
    }
  }
}
