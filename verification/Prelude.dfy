// Small shared vocabulary: optional values, results and the parts of Rust's
// `str` API that several modules rely on.
module Prelude {

  datatype Option<+T> = None | Some(value: T)

  datatype Result<+T, +E> = Ok(value: T) | Err(error: E)

  // `Option::or`.
  function Or<T>(a: Option<T>, b: Option<T>): Option<T>
  {
    if a.Some? then a else b
  }

  // `HashMap::get`.
  function Lookup<K, V>(m: map<K, V>, key: K): Option<V>
  {
    if key in m then Some(m[key]) else None
  }

  // The Unicode White_Space property, which `char::is_whitespace` and `str::trim` use.
  predicate IsWhitespace(c: char)
  {
    var n := c as int;
    || 0x09 <= n <= 0x0D || n == 0x20 || n == 0x85 || n == 0xA0 || n == 0x1680
    || 0x2000 <= n <= 0x200A || n == 0x2028 || n == 0x2029 || n == 0x202F
    || n == 0x205F || n == 0x3000
  }

  predicate Blank(s: string)
  {
    forall i | 0 <= i < |s| :: IsWhitespace(s[i])
  }

  // No whitespace at either edge.
  predicate Trimmed(s: string)
  {
    s != [] ==> !IsWhitespace(s[0]) && !IsWhitespace(s[|s| - 1])
  }

  function TrimStart(s: string): (t: string)
    ensures |t| <= |s| && t == s[|s| - |t|..]
    ensures forall i | 0 <= i < |s| - |t| :: IsWhitespace(s[i])
    ensures t != [] ==> !IsWhitespace(t[0])
  {
    if s != [] && IsWhitespace(s[0]) then TrimStart(s[1..]) else s
  }

  function TrimEnd(s: string): (t: string)
    ensures t <= s
    ensures forall i | |t| <= i < |s| :: IsWhitespace(s[i])
    ensures t != [] ==> !IsWhitespace(t[|t| - 1])
  {
    if s != [] && IsWhitespace(s[|s| - 1]) then TrimEnd(s[..|s| - 1]) else s
  }

  function Trim(s: string): string
  {
    TrimEnd(TrimStart(s))
  }

  lemma TrimIsTrimmed(s: string)
    ensures Trimmed(Trim(s))
  {
    TrimEndKeepsFront(TrimStart(s));
  }

  lemma TrimEndKeepsFront(s: string)
    requires s != [] ==> !IsWhitespace(s[0])
    ensures Trimmed(TrimEnd(s))
  {
    var t := TrimEnd(s);
    if t != [] {
      assert t[0] == s[0];
    }
  }

  lemma TrimBlank(s: string)
    ensures Trim(s) == [] <==> Blank(s)
  {
    var front := TrimStart(s);
    assert front != [] ==> front[0] == s[|s| - |front|];
  }

  // Trimming is the identity on text that has nothing to trim.
  lemma TrimIdentity(s: string)
    requires Trimmed(s)
    ensures TrimStart(s) == s && TrimEnd(s) == s && Trim(s) == s
  {
  }

  predicate StartsWith(s: string, prefix: string)
  {
    prefix <= s
  }

  function StripPrefix(s: string, prefix: string): (r: Option<string>)
    ensures r.Some? ==> s == prefix + r.value
    ensures r.None? ==> !StartsWith(s, prefix)
  {
    if prefix <= s then Some(s[|prefix|..]) else None
  }

  // Byte-position-free `str::find` of one character.
  function Find(s: string, c: char): (r: Option<nat>)
    ensures r.Some? ==> r.value < |s| && s[r.value] == c && c !in s[..r.value]
    ensures r.None? ==> c !in s
  {
    if s == [] then None
    else if s[0] == c then Some(0)
    else
      match Find(s[1..], c)
      case None => None
      case Some(i) => assert s[..i + 1] == [s[0]] + s[1..][..i]; Some(i + 1)
  }

  lemma FindSplit(a: string, c: char, b: string)
    requires c !in a
    ensures Find(a + [c] + b, c) == Some(|a|)
  {
    if a == [] {
    } else {
      var s := a + [c] + b;
      assert s[1..] == a[1..] + [c] + b;
      assert s[0] == a[0] && a[0] in a;
      assert forall x <- a[1..] :: x in a;
      FindSplit(a[1..], c, b);
    }
  }

  // `to_ascii_lowercase`.
  function AsciiLower(s: string): (t: string)
    ensures |t| == |s|
  {
    seq(|s|, i requires 0 <= i < |s| => if 'A' <= s[i] <= 'Z' then (s[i] as int + 32) as char else s[i])
  }

  predicate NoDuplicates<T(==)>(s: seq<T>)
  {
    forall i, j | 0 <= i < j < |s| :: s[i] != s[j]
  }

  // In descending order of `key`.
  predicate Descending<T>(s: seq<T>, key: T -> int)
  {
    forall i, j | 0 <= i < j < |s| :: key(s[i]) >= key(s[j])
  }

  // The last `n` elements, or all of them.
  function Last<T>(s: seq<T>, n: nat): (t: seq<T>)
    ensures |t| <= n
    ensures |s| <= n ==> t == s
  {
    if |s| <= n then s else s[|s| - n..]
  }

  function Concat<T>(parts: seq<seq<T>>): seq<T>
  {
    if parts == [] then [] else parts[0] + Concat(parts[1..])
  }

  function FlatMap<T, U>(s: seq<T>, g: T -> seq<U>): seq<U>
  {
    if s == [] then [] else g(s[0]) + FlatMap(s[1..], g)
  }

  lemma Associative<T>(a: seq<T>, b: seq<T>, c: seq<T>)
    ensures (a + b) + c == a + (b + c)
  {
  }

  lemma FlatMapCons<T, U>(first: T, rest: seq<T>, g: T -> seq<U>)
    ensures FlatMap([first] + rest, g) == g(first) + FlatMap(rest, g)
  {
    assert ([first] + rest)[1..] == rest;
  }

  lemma {:induction false} FlatMapConcat<T, U>(a: seq<T>, b: seq<T>, g: T -> seq<U>)
    ensures FlatMap(a + b, g) == FlatMap(a, g) + FlatMap(b, g)
  {
    if a == [] {
      assert a + b == b;
    } else {
      FlatMapConcat(a[1..], b, g);
      Associative([a[0]], a[1..], b);
      assert a == [a[0]] + a[1..];
      FlatMapCons(a[0], a[1..] + b, g);
      Associative(g(a[0]), FlatMap(a[1..], g), FlatMap(b, g));
    }
  }

  lemma FlatMapSnoc<T, U>(s: seq<T>, last: T, g: T -> seq<U>)
    ensures FlatMap(s + [last], g) == FlatMap(s, g) + g(last)
  {
    FlatMapConcat(s, [last], g);
    FlatMapCons(last, [], g);
    assert [last] + [] == [last];
  }

  lemma FlatMapOne<T, U>(x: T, g: T -> seq<U>)
    ensures FlatMap([x], g) == g(x)
  {
    FlatMapCons(x, [], g);
    assert [x] + [] == [x] && g(x) + [] == g(x);
  }

  lemma FlatMapTwo<T, U>(x: T, y: T, g: T -> seq<U>)
    ensures FlatMap([x, y], g) == g(x) + g(y)
  {
    FlatMapSnoc([x], y, g);
    FlatMapOne(x, g);
    assert [x] + [y] == [x, y];
  }

  // ---- the tables, by enumeration ----

  lemma WhitespaceIs(c: char)
    ensures IsWhitespace(c)
       <==> c as int in {0x09, 0x0A, 0x0B, 0x0C, 0x0D, 0x20, 0x85, 0xA0, 0x1680, 0x2000, 0x2001, 0x2002, 0x2003, 0x2004,
                         0x2005, 0x2006, 0x2007, 0x2008, 0x2009, 0x200A, 0x2028, 0x2029, 0x202F, 0x205F, 0x3000}
  {
  }

  const UPPER: string := "ABCDEFGHIJKLMNOPQRSTUVWXYZ"
  const LOWER: string := "abcdefghijklmnopqrstuvwxyz"

  // Lower-casing replaces the 26 letters, wherever they stand, and nothing else.
  lemma AsciiLowerIs(s: string, i: nat)
    requires i < |s|
    ensures forall k | 0 <= k < 26 :: s[i] == UPPER[k] ==> AsciiLower(s)[i] == LOWER[k]
    ensures s[i] !in UPPER ==> AsciiLower(s)[i] == s[i]
  {
    Alphabet();
    if 'A' <= s[i] <= 'Z' {
      assert UPPER[s[i] as int - 'A' as int] == s[i];
    }
  }

  lemma Alphabet()
    ensures |UPPER| == |LOWER| == 26
    ensures forall k | 0 <= k < 26 :: UPPER[k] as int == 'A' as int + k && LOWER[k] as int == 'a' as int + k
  {
  }
}
