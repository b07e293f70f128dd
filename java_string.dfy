/** The `java.lang.String` operations the client relies on, on `seq<char>`. */
module JavaString {

  /** `s.startsWith(p)`. */
  predicate StartsWith(s: string, p: string)
  {
    |p| <= |s| && s[..|p|] == p
  }

  /** `String.join(d, parts)`: the parts with `d` between neighbours. */
  function Join(d: string, parts: seq<string>): string
  {
    if |parts| == 0 then ""
    else if |parts| == 1 then parts[0]
    else parts[0] + d + Join(d, parts[1..])
  }

  /** A join of two or more parts starts with the first part and the delimiter. */
  lemma JoinHead(d: string, parts: seq<string>)
    requires |parts| >= 2
    ensures Join(d, parts) == parts[0] + d + Join(d, parts[1..])
    ensures StartsWith(Join(d, parts), parts[0] + d)
  {
    assert (parts[0] + d + Join(d, parts[1..]))[..|parts[0] + d|] == parts[0] + d;
  }

  /** `s.indexOf(c)`: the first position of `c`, or -1. */
  function IndexOf(s: string, c: char): (r: int)
    ensures -1 <= r < |s|
    ensures r == -1 <==> c !in s
    ensures 0 <= r ==> s[r] == c && c !in s[..r]
  {
    if |s| == 0 then -1
    else if s[0] == c then 0
    else
      var i := IndexOf(s[1..], c);
      assert s[1..][..if i < 0 then 0 else i] == s[1..if i < 0 then 1 else i + 1];
      if i == -1 then -1 else i + 1
  }

  /** The first occurrence of `c` in `p + [c] + q` when `p` has none is at `|p|`. */
  lemma {:induction false} IndexOfAfterPrefix(p: string, c: char, q: string)
    requires c !in p
    ensures IndexOf(p + [c] + q, c) == |p|
  {
    var s := p + [c] + q;
    if p != [] {
      assert s[1..] == p[1..] + [c] + q;
      IndexOfAfterPrefix(p[1..], c, q);
    }
  }

  /** The pieces of `s` between occurrences of `c`, empty pieces kept. */
  function Split(s: string, c: char): seq<string>
    decreases |s|
  {
    var i := IndexOf(s, c);
    if i < 0 then [s] else [s[..i]] + Split(s[i + 1..], c)
  }

  /** A piece free of `c` followed by `c` splits off first. */
  lemma SplitAfterFirst(p: string, c: char, q: string)
    requires c !in p
    ensures Split(p + [c] + q, c) == [p] + Split(q, c)
  {
    var s := p + [c] + q;
    IndexOfAfterPrefix(p, c, q);
    assert s[..|p|] == p;
    assert s[|p| + 1..] == q;
  }

  /** Joining parts free of `c` with `c` and splitting at `c` gives the parts back. */
  lemma {:induction false} SplitJoin(parts: seq<string>, c: char)
    requires |parts| > 0 && forall i | 0 <= i < |parts| :: c !in parts[i]
    ensures Split(Join([c], parts), c) == parts
  {
    if |parts| == 1 {
      assert c !in parts[0];
      assert IndexOf(parts[0], c) == -1;
    } else {
      var rest := parts[1..];
      assert forall i | 0 <= i < |rest| :: rest[i] == parts[i + 1];
      SplitJoin(rest, c);
      assert Join([c], parts) == parts[0] + [c] + Join([c], rest);
      SplitAfterFirst(parts[0], c, Join([c], rest));
      assert parts == [parts[0]] + rest;
    }
  }

  /** A character Java's `trim` strips: any code point up to U+0020. */
  predicate IsTrimmed(c: char)
  {
    c <= ' '
  }

  function TrimStart(s: string): string
  {
    if |s| > 0 && IsTrimmed(s[0]) then TrimStart(s[1..]) else s
  }

  function TrimEnd(s: string): string
  {
    if |s| > 0 && IsTrimmed(s[|s| - 1]) then TrimEnd(s[..|s| - 1]) else s
  }

  /** `s.trim()`: leading and trailing characters up to U+0020 removed. */
  function Trim(s: string): string
  {
    TrimEnd(TrimStart(s))
  }

  predicate AllTrimmed(s: string)
  {
    forall i | 0 <= i < |s| :: IsTrimmed(s[i])
  }

  lemma {:induction false} TrimStartEmpty(s: string)
    ensures TrimStart(s) == [] <==> AllTrimmed(s)
    ensures TrimStart(s) != [] ==> !IsTrimmed(TrimStart(s)[0])
  {
    if |s| > 0 && IsTrimmed(s[0]) {
      TrimStartEmpty(s[1..]);
      assert AllTrimmed(s) <==> AllTrimmed(s[1..]) by {
        if AllTrimmed(s[1..]) {
          forall i | 0 <= i < |s| ensures IsTrimmed(s[i]) {
            if i > 0 { assert s[i] == s[1..][i - 1]; }
          }
        }
      }
    }
  }

  lemma {:induction false} TrimEndKeepsNonBlankHead(s: string)
    requires |s| > 0 && !IsTrimmed(s[0])
    ensures TrimEnd(s) != []
  {
    if IsTrimmed(s[|s| - 1]) {
      TrimEndKeepsNonBlankHead(s[..|s| - 1]);
    }
  }

  /** `s.trim().isEmpty()` holds exactly when every character of `s` is at most U+0020. */
  lemma TrimEmptyIffAllBlank(s: string)
    ensures Trim(s) == [] <==> AllTrimmed(s)
  {
    TrimStartEmpty(s);
    var t := TrimStart(s);
    if t != [] {
      TrimEndKeepsNonBlankHead(t);
    }
  }

  /** Java's `int`: two's complement, 32 bits. */
  newtype int32 = x: int | -0x8000_0000 <= x < 0x8000_0000

  /** The hash of the prefix as an unsigned 32-bit word, by Horner's rule. */
  function HashWord(s: string): (r: nat)
    ensures r < 0x1_0000_0000
  {
    if s == [] then 0
    else (31 * HashWord(s[..|s| - 1]) + s[|s| - 1] as int) % 0x1_0000_0000
  }

  /** The exact value of `s[0]*31^(n-1) + ... + s[n-1]`, by Horner's rule, before any wrap-around. */
  function HashPolynomial(s: string): int
  {
    if s == [] then 0 else 31 * HashPolynomial(s[..|s| - 1]) + s[|s| - 1] as int
  }

  lemma ShiftByWords(x: int, k: int)
    ensures (x + k * 0x1_0000_0000) % 0x1_0000_0000 == x % 0x1_0000_0000
  {
  }

  /** The 32-bit word is the polynomial reduced modulo 2^32. */
  lemma {:induction false} HashWordIsPolynomialMod(s: string)
    ensures HashWord(s) == HashPolynomial(s) % 0x1_0000_0000
  {
    if s != [] {
      var p := s[..|s| - 1];
      var c := s[|s| - 1] as int;
      HashWordIsPolynomialMod(p);
      var P := HashPolynomial(p);
      var q := P / 0x1_0000_0000;
      assert P == q * 0x1_0000_0000 + P % 0x1_0000_0000;
      assert 31 * P + c == (31 * (P % 0x1_0000_0000) + c) + (31 * q) * 0x1_0000_0000;
      ShiftByWords(31 * (P % 0x1_0000_0000) + c, 31 * q);
    }
  }

  lemma HashWordCongruent(s: string)
    ensures (HashWord(s) - HashPolynomial(s)) % 0x1_0000_0000 == 0
  {
    HashWordIsPolynomialMod(s);
    var P := HashPolynomial(s);
    var q := P / 0x1_0000_0000;
    assert HashWord(s) - P == -q * 0x1_0000_0000;
    ShiftByWords(0, -q);
  }

  /** `s.hashCode()`: the polynomial wrapped to a signed 32-bit int. */
  function HashCode(s: string): (r: int32)
    ensures (r as int - HashPolynomial(s)) % 0x1_0000_0000 == 0
  {
    var w := HashWord(s);
    HashWordCongruent(s);
    if w < 0x8000_0000 then w as int32
    else
      ShiftByWords(w - HashPolynomial(s), -1);
      (w - 0x1_0000_0000) as int32
  }

  /** `Long.intValue`: the low 32 bits, read as a two's-complement `int`. */
  function IntValue(n: int): (r: int32)
    ensures (r as int - n) % 0x1_0000_0000 == 0
    ensures -0x8000_0000 <= n < 0x8000_0000 ==> r as int == n
  {
    var w := n % 0x1_0000_0000;
    if w < 0x8000_0000 then w as int32 else (w - 0x1_0000_0000) as int32
  }

  /** A cardinality of 2^31 already reads as a negative `size()`. */
  lemma IntValueWrapsAtTwoToThe31()
    ensures IntValue(0x8000_0000) == -0x8000_0000 as int32
  {
  }

  /** The number a string of decimal digits denotes. */
  function DigitsValue(s: string): int
  {
    if s == [] then 0 else 10 * DigitsValue(s[..|s| - 1]) + (s[|s| - 1] as int - '0' as int)
  }

  /** The decimal digits of `n`, most significant first, with no leading zero. */
  function Digits(n: nat): (r: string)
    ensures r != [] && forall c | c in r :: '0' <= c <= '9'
    ensures DigitsValue(r) == n
    ensures r[0] == '0' ==> r == "0"
  {
    var d := ('0' as int + n % 10) as char;
    if n < 10 then
      assert [d][..0] == [];
      [d]
    else
      var h := Digits(n / 10);
      assert (h + [d])[..|h + [d]| - 1] == h;
      h + [d]
  }

  /** `String.valueOf(n)` for a `long`: a minus sign exactly for a negative `n`, then the digits of `|n|`. */
  function ValueOf(n: int): (r: string)
    ensures ':' !in r && r != []
    ensures n < 0 <==> r[0] == '-'
    ensures n < 0 ==> DigitsValue(r[1..]) == -n
    ensures n >= 0 ==> DigitsValue(r) == n
  {
    if n < 0 then
      assert ("-" + Digits(-n))[1..] == Digits(-n);
      "-" + Digits(-n)
    else
      assert Digits(n)[0] in Digits(n);
      Digits(n)
  }
}
