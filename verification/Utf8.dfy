// UTF-8 (section 3 of RFC 3629) as `str` uses it: byte offsets, character
// boundaries, and truncation that never splits a character.
module Utf8 {
  import opened Prelude

  type Byte = n: int | 0 <= n < 256

  // `char::len_utf8`.
  function Width(c: char): (w: nat)
    ensures 1 <= w <= 4
  {
    var n := c as int;
    if n < 0x80 then 1 else if n < 0x800 then 2 else if n < 0x10000 then 3 else 4
  }

  function EncodeChar(c: char): (b: seq<Byte>)
    ensures |b| == Width(c)
  {
    var n := c as int;
    if n < 0x80 then [n]
    else if n < 0x800 then [0xC0 + n / 64, 0x80 + n % 64]
    else if n < 0x10000 then [0xE0 + n / 4096, 0x80 + n / 64 % 64, 0x80 + n % 64]
    else [0xF0 + n / 262144, 0x80 + n / 4096 % 64, 0x80 + n / 64 % 64, 0x80 + n % 64]
  }

  function Encode(s: string): seq<Byte>
  {
    FlatMap(s, EncodeChar)
  }

  predicate IsContinuation(b: Byte)
  {
    0x80 <= b < 0xC0
  }

  // `str::is_char_boundary`.
  predicate IsCharBoundary(b: seq<Byte>, i: nat)
  {
    i == 0 || i == |b| || (i < |b| && !IsContinuation(b[i]))
  }

  // Width of the character a lead byte announces.
  function LeadWidth(b: Byte): (w: nat)
    ensures 1 <= w <= 4
  {
    if b < 0xC0 then 1 else if b < 0xE0 then 2 else if b < 0xF0 then 3 else 4
  }

  function LeadPayload(b: Byte): int
  {
    if b < 0xC0 then b else if b < 0xE0 then b - 0xC0 else if b < 0xF0 then b - 0xE0 else b - 0xF0
  }

  function ContinuationPayload(b: Byte): int
  {
    b as int - 0x80
  }

  // The scalar value spelled by the first character of `b`.
  function FirstScalar(b: seq<Byte>): int
    requires b != [] && LeadWidth(b[0]) <= |b|
  {
    var p := LeadPayload(b[0]);
    match LeadWidth(b[0])
    case 1 => p
    case 2 => p * 64 + ContinuationPayload(b[1])
    case 3 => p * 4096 + ContinuationPayload(b[1]) * 64 + ContinuationPayload(b[2])
    case _ => p * 262144 + ContinuationPayload(b[1]) * 4096 + ContinuationPayload(b[2]) * 64 + ContinuationPayload(b[3])
  }

  predicate IsScalar(n: int)
  {
    0 <= n < 0xD800 || 0xE000 <= n < 0x11_0000
  }

  // The first character, if `b` starts with a well-formed one. Comparing with
  // the encoder rules out overlong forms and bad continuation bytes.
  function FirstChar(b: seq<Byte>): (r: Option<char>)
    ensures r.Some? ==> EncodeChar(r.value) <= b
  {
    if b == [] || |b| < LeadWidth(b[0]) then None
    else
      var n := FirstScalar(b);
      if IsScalar(n) && EncodeChar(n as char) <= b then Some(n as char) else None
  }

  // `String::from_utf8`.
  function FromUtf8(b: seq<Byte>): (r: Option<string>)
    ensures r.Some? ==> Encode(r.value) == b
  {
    if b == [] then Some([])
    else
      match FirstChar(b)
      case None => None
      case Some(c) =>
        match FromUtf8(b[Width(c)..])
        case None => None
        case Some(rest) =>
          assert ([c] + rest)[1..] == rest;
          Some([c] + rest)
  }

  predicate Valid(b: seq<Byte>)
  {
    FromUtf8(b).Some?
  }

  // The shape of an encoded character: one lead byte, which announces the width,
  // and continuation bytes after it.
  lemma EncodedShape(c: char)
    ensures
      var b := EncodeChar(c);
      && !IsContinuation(b[0]) && LeadWidth(b[0]) == |b|
      && forall i | 0 < i < |b| :: IsContinuation(b[i])
  {
  }

  lemma FirstScalarInverts(c: char)
    ensures LeadWidth(EncodeChar(c)[0]) == |EncodeChar(c)|
    ensures FirstScalar(EncodeChar(c)) == c as int
  {
    var n := c as int;
    if 0x800 <= n < 0x10000 {
      assert n / 64 / 64 == n / 4096;
    } else if n >= 0x10000 {
      assert n / 64 / 64 == n / 4096 && n / 4096 / 64 == n / 262144;
    }
  }

  lemma FirstCharInverts(c: char, rest: seq<Byte>)
    ensures FirstChar(EncodeChar(c) + rest) == Some(c)
  {
    EncodedShape(c);
    FirstScalarInverts(c);
    var e := EncodeChar(c);
    assert FirstScalar(e + rest) == FirstScalar(e);
  }

  // Decoding inverts encoding, so the valid byte strings are exactly the encodings.
  lemma {:induction false} FromUtf8Inverts(s: string)
    ensures FromUtf8(Encode(s)) == Some(s)
  {
    if s != [] {
      FirstCharInverts(s[0], Encode(s[1..]));
      FromUtf8Inverts(s[1..]);
      assert Encode(s)[Width(s[0])..] == Encode(s[1..]);
      assert [s[0]] + s[1..] == s;
    }
  }

  lemma EncodeOne(c: char)
    ensures Encode([c]) == EncodeChar(c)
  {
    assert [c][1..] == [];
    assert FlatMap([c], EncodeChar) == EncodeChar([c][0]) + FlatMap([c][1..], EncodeChar);
  }

  lemma EncodeConcat(a: string, b: string)
    ensures Encode(a + b) == Encode(a) + Encode(b)
  {
    FlatMapConcat(a, b, EncodeChar);
  }

  // A character boundary of an encoding lies between two characters: it cuts the
  // text after its first `k` characters.
  lemma {:induction false} CutAtBoundary(s: string, i: nat) returns (k: nat)
    requires i <= |Encode(s)| && IsCharBoundary(Encode(s), i)
    ensures k <= |s| && Encode(s[..k]) == Encode(s)[..i] && Encode(s[k..]) == Encode(s)[i..]
  {
    if i == 0 {
      assert s[0..] == s;
      return 0;
    }
    var w := Width(s[0]);
    BoundaryPastFirst(s, i);
    k := CutAtBoundary(s[1..], i - w);
    JoinFirst(s, i, k);
    k := k + 1;
  }

  lemma BoundaryPastFirst(s: string, i: nat)
    requires s != [] && 0 < i <= |Encode(s)| && IsCharBoundary(Encode(s), i)
    ensures Width(s[0]) <= i && IsCharBoundary(Encode(s[1..]), i - Width(s[0]))
  {
    EncodedShape(s[0]);
    var w := Width(s[0]);
    assert Encode(s)[w..] == Encode(s[1..]);
    assert forall j | 0 <= j < w :: Encode(s)[j] == EncodeChar(s[0])[j];
    assert w <= i < |Encode(s)| ==> Encode(s[1..])[i - w] == Encode(s)[i];
  }

  lemma JoinFirst(s: string, i: nat, k: nat)
    requires s != [] && k <= |s[1..]| && Width(s[0]) <= i <= |Encode(s)|
    requires Encode(s[1..][..k]) == Encode(s[1..])[..i - Width(s[0])]
    requires Encode(s[1..][k..]) == Encode(s[1..])[i - Width(s[0])..]
    ensures Encode(s[..k + 1]) == Encode(s)[..i] && Encode(s[k + 1..]) == Encode(s)[i..]
  {
    assert s[..k + 1][1..] == s[1..][..k];
    assert s[k + 1..] == s[1..][k..];
  }

  // Both halves of a valid string cut at a boundary are valid, and so are joins.
  lemma BoundaryCutsValid(b: seq<Byte>, i: nat)
    requires Valid(b) && i <= |b| && IsCharBoundary(b, i)
    ensures Valid(b[..i]) && Valid(b[i..])
  {
    var s := FromUtf8(b).value;
    var k := CutAtBoundary(s, i);
    FromUtf8Inverts(s[..k]);
    FromUtf8Inverts(s[k..]);
  }

  lemma ValidConcat(a: seq<Byte>, b: seq<Byte>)
    requires Valid(a) && Valid(b)
    ensures Valid(a + b) && IsCharBoundary(a + b, |a|)
  {
    var s, t := FromUtf8(a).value, FromUtf8(b).value;
    EncodeConcat(s, t);
    FromUtf8Inverts(s + t);
    if t != [] {
      EncodedShape(t[0]);
      assert (a + b)[|a|] == EncodeChar(t[0])[0];
    }
  }

  lemma LeadIsBoundary(b: seq<Byte>)
    requires Valid(b) && b != []
    ensures !IsContinuation(b[0])
  {
    EncodedShape(FirstChar(b).value);
  }

  lemma TailBoundary(b: seq<Byte>, w: nat, j: nat)
    requires w + j <= |b| && IsCharBoundary(b[w..], j) && (j > 0 || IsCharBoundary(b, w))
    ensures IsCharBoundary(b, w + j)
  {
  }

  // Among any four consecutive positions of a valid string one is a boundary.
  lemma {:induction false} BoundaryWithinFour(b: seq<Byte>, i: nat) returns (j: nat)
    requires Valid(b) && i + 3 < |b|
    ensures i <= j <= i + 3 && IsCharBoundary(b, j)
    decreases |b|
  {
    if i == 0 {
      return 0;
    }
    var w := Width(FirstChar(b).value);
    var tail := b[w..];
    if tail != [] {
      LeadIsBoundary(tail);
      assert tail[0] == b[w];
    }
    if i < w {
      return w;
    }
    j := BoundaryWithinFour(tail, i - w);
    TailBoundary(b, w, j);
    j := w + j;
  }

  // The last boundary at or before `limit`, found by stepping back.
  function LastBoundary(b: seq<Byte>, limit: nat): (end: nat)
    requires limit <= |b|
    ensures end <= limit && IsCharBoundary(b, end)
    ensures forall j | end < j <= limit :: !IsCharBoundary(b, j)
  {
    if IsCharBoundary(b, limit) then limit else LastBoundary(b, limit - 1)
  }

  lemma BoundaryIsClose(b: seq<Byte>, end: nat, max: nat)
    requires Valid(b) && end <= max < |b|
    requires forall j | end < j <= max :: !IsCharBoundary(b, j)
    ensures max <= end + 3
  {
    if end + 3 < max {
      var j := BoundaryWithinFour(b, end + 1);
    }
  }

  // The cut both truncation helpers make: the kept part of an over-long string
  // is the longest prefix within the cap that ends on a boundary; it is valid
  // and at most three bytes short of the cap.
  method Cut(b: seq<Byte>, max: nat) returns (end: nat)
    requires Valid(b) && max < |b|
    ensures end <= max && IsCharBoundary(b, end) && Valid(b[..end])
    ensures forall j | end < j <= max :: !IsCharBoundary(b, j)
    ensures max <= end + 3
  {
    end := max;
    while end > 0 && !IsCharBoundary(b, end)
      invariant end <= max
      invariant forall j | end < j <= max :: !IsCharBoundary(b, j)
    {
      end := end - 1;
    }
    BoundaryCutsValid(b, end);
    BoundaryIsClose(b, end, max);
  }

  method Capped(b: seq<Byte>, max: nat) returns (out: seq<Byte>)
    requires Valid(b)
    ensures Valid(out)
    ensures |b| <= max ==> out == b
    ensures |b| > max ==> out == b[..LastBoundary(b, max)] && max <= |out| + 3
  {
    if |b| <= max {
      return b;
    }
    var end := Cut(b, max);
    assert end == LastBoundary(b, max);
    out := b[..end];
  }

  const ELLIPSIS: seq<Byte> := [0x2E, 0x2E, 0x2E]

  // The recall hint's snippet: whole when it fits, else the kept part and dots.
  method Truncate(b: seq<Byte>, max: nat) returns (out: seq<Byte>)
    requires Valid(b)
    ensures Valid(out)
    ensures |b| <= max ==> out == b
    ensures |b| > max ==> out == b[..LastBoundary(b, max)] + ELLIPSIS && max <= LastBoundary(b, max) + 3
  {
    if |b| <= max {
      return b;
    }
    var end := Cut(b, max);
    assert end == LastBoundary(b, max);
    FromUtf8Inverts("...");
    assert Encode("...") == ELLIPSIS;
    ValidConcat(b[..end], ELLIPSIS);
    out := b[..end] + ELLIPSIS;
  }
}
