/**
 * Request identities for the result pool: `SedisRequest`'s string form
 * and default equality, and `SedisValueRequest`, the request for one key.
 */
module Requests {
  import opened JavaString
  import opened Jvm

  /** The single backslash written `'\\'` and `"\\"` in Java. */
  const BACKSLASH: char := '\\'
  const BACKSLASH_STR: string := [BACKSLASH]

  /** What the `SedisRequest` interface sees of a request: `prefix()` and `toStrings()`. */
  datatype Request = Request(prefix: string, parts: seq<string>)

  /** `asString(delimiter)`: the prefix, a backslash, then the parts joined by `delimiter`. */
  function AsString(q: Request, delimiter: string): (r: string)
    ensures StartsWith(r, q.prefix + BACKSLASH_STR)
    ensures |q.parts| == 1 ==> r == q.prefix + BACKSLASH_STR + q.parts[0]
  {
    var r := q.prefix + [BACKSLASH] + Join(delimiter, q.parts);
    assert r[..|q.prefix| + 1] == q.prefix + BACKSLASH_STR;
    r
  }

  /** The interface's default `equals(T)`: same number of parts and the same backslash form. */
  predicate DefaultEquals(a: Request, b: Request)
  {
    |a.parts| == |b.parts| && AsString(a, BACKSLASH_STR) == AsString(b, BACKSLASH_STR)
  }

  /** Requests whose part counts differ are never equal, even when their strings coincide. */
  lemma DifferentCountsNeverEqual(a: Request, b: Request)
    requires |a.parts| != |b.parts|
    ensures !DefaultEquals(a, b)
  {
  }

  lemma DefaultEqualsReflexiveSymmetric(a: Request, b: Request)
    ensures DefaultEquals(a, a)
    ensures DefaultEquals(a, b) <==> DefaultEquals(b, a)
  {
  }

  /** Equality always uses the backslash form: two requests alike under `","` can still differ. */
  lemma DefaultEqualsIgnoresDelimiter()
    ensures var a := Request("p", ["x,y", "z"]);
            var b := Request("p", ["x", "y,z"]);
            AsString(a, ",") == AsString(b, ",") && !DefaultEquals(a, b)
  {
    var a := Request("p", ["x,y", "z"]);
    var b := Request("p", ["x", "y,z"]);
    assert Join(",", a.parts) == "x,y,z" by { assert a.parts[1..] == ["z"]; }
    assert Join(",", b.parts) == "x,y,z" by { assert b.parts[1..] == ["y,z"]; }
    assert Join(BACKSLASH_STR, a.parts) == "x,y\\z" by { assert a.parts[1..] == ["z"]; }
    assert Join(BACKSLASH_STR, b.parts) == "x\\y,z" by { assert b.parts[1..] == ["y,z"]; }
    assert AsString(a, BACKSLASH_STR)[3] == ',' && AsString(b, BACKSLASH_STR)[3] == BACKSLASH;
  }

  /** A backslash inside a part lets different requests with the same count compare equal. */
  lemma DefaultEqualsCollides()
    ensures var a := Request("p", ["a\\b", "c"]);
            var b := Request("p", ["a", "b\\c"]);
            a != b && DefaultEquals(a, b)
  {
    var a := Request("p", ["a\\b", "c"]);
    var b := Request("p", ["a", "b\\c"]);
    assert a.parts[1..] == ["c"] && b.parts[1..] == ["b\\c"];
    assert Join(BACKSLASH_STR, a.parts) == "a\\b\\c";
    assert Join(BACKSLASH_STR, b.parts) == "a\\b\\c";
  }

  /** With no backslash anywhere, default equality is equality of prefix and parts. */
  lemma DefaultEqualsExact(a: Request, b: Request)
    requires BACKSLASH !in a.prefix && BACKSLASH !in b.prefix
    requires forall i | 0 <= i < |a.parts| :: BACKSLASH !in a.parts[i]
    requires forall i | 0 <= i < |b.parts| :: BACKSLASH !in b.parts[i]
    ensures DefaultEquals(a, b) <==> a == b
  {
    if DefaultEquals(a, b) {
      var ja, jb := Join(BACKSLASH_STR, a.parts), Join(BACKSLASH_STR, b.parts);
      IndexOfAfterPrefix(a.prefix, BACKSLASH, ja);
      IndexOfAfterPrefix(b.prefix, BACKSLASH, jb);
      assert a.prefix + [BACKSLASH] + ja == AsString(a, BACKSLASH_STR);
      assert |a.prefix| == |b.prefix|;
      assert a.prefix == AsString(a, BACKSLASH_STR)[..|a.prefix|];
      assert b.prefix == AsString(b, BACKSLASH_STR)[..|b.prefix|];
      assert ja == AsString(a, BACKSLASH_STR)[|a.prefix| + 1..];
      assert jb == AsString(b, BACKSLASH_STR)[|b.prefix| + 1..];
      JoinInjective(a.parts, b.parts);
    }
  }

  /** Joining parts free of the delimiter character loses nothing. */
  lemma {:induction false} JoinInjective(a: seq<string>, b: seq<string>)
    requires |a| == |b|
    requires forall i | 0 <= i < |a| :: BACKSLASH !in a[i]
    requires forall i | 0 <= i < |b| :: BACKSLASH !in b[i]
    requires Join(BACKSLASH_STR, a) == Join(BACKSLASH_STR, b)
    ensures a == b
  {
    if |a| >= 2 {
      var ra, rb := Join(BACKSLASH_STR, a[1..]), Join(BACKSLASH_STR, b[1..]);
      var s := Join(BACKSLASH_STR, a);
      IndexOfAfterPrefix(a[0], BACKSLASH, ra);
      IndexOfAfterPrefix(b[0], BACKSLASH, rb);
      assert s == a[0] + [BACKSLASH] + ra;
      assert s == b[0] + [BACKSLASH] + rb;
      assert |a[0]| == |b[0]|;
      assert a[0] == s[..|a[0]|] == b[0];
      assert ra == s[|a[0]| + 1..] == rb;
      JoinInjective(a[1..], b[1..]);
      assert a == [a[0]] + a[1..] && b == [b[0]] + b[1..];
    }
  }

  const VALUE_PREFIX: string := "value"

  /** `SedisValueRequest(key)`. */
  datatype ValueRequest = ValueRequest(key: string)
  {
    /** `toStrings()`: the key alone. */
    function ToStrings(): (r: seq<string>)
      ensures |r| == 1 && r[0] == key
    {
      [key]
    }

    /** The request as the interface sees it. */
    function AsRequest(): Request
    {
      Request(VALUE_PREFIX, ToStrings())
    }

    /** `toString()`: `value\` followed by the key. */
    function ToString(): (r: string)
      ensures r == VALUE_PREFIX + BACKSLASH_STR + key
    {
      AsString(AsRequest(), BACKSLASH_STR)
    }

    /** `hashCode()`: the hash of `toString()`, so it depends on the key alone. */
    function HashCode(): (r: int32)
      ensures r == JavaString.HashCode(VALUE_PREFIX + BACKSLASH_STR + key)
    {
      JavaString.HashCode(ToString())
    }
  }

  /** The argument of `equals(Object)`: null, another value request, or any other object. */
  datatype Other = NullRef | ValueRef(request: ValueRequest) | OtherRef(obj: Obj)

  /** `SedisValueRequest.equals(Object)`, through the default `equals(T)`. */
  predicate ValueEquals(q: ValueRequest, o: Other)
  {
    o.ValueRef? && DefaultEquals(q.AsRequest(), o.request.AsRequest())
  }

  /** Null and non-value requests are unequal; value requests are equal exactly when their keys are. */
  lemma ValueEqualsIffSameKey(q: ValueRequest, o: Other)
    ensures o.NullRef? || o.OtherRef? ==> !ValueEquals(q, o)
    ensures o.ValueRef? ==> (ValueEquals(q, o) <==> q.key == o.request.key)
  {
    if o.ValueRef? && ValueEquals(q, o) {
      var s := q.ToString();
      assert s == VALUE_PREFIX + BACKSLASH_STR + q.key;
      assert o.request.ToString() == VALUE_PREFIX + BACKSLASH_STR + o.request.key;
      assert q.key == s[|VALUE_PREFIX| + 1..];
    }
  }

  /** Equal requests hash alike, so a hash map keyed by requests behaves as one keyed by keys. */
  lemma EqualRequestsHashAlike(q: ValueRequest, o: ValueRequest)
    requires ValueEquals(q, ValueRef(o))
    ensures q.HashCode() == o.HashCode()
  {
    ValueEqualsIffSameKey(q, ValueRef(o));
  }
}
