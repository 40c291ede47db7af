// Percent encoding (section 2.1 of RFC 3986): two encoders written apart, and the
// decoder that copies its input only once it meets an escape.
module Percent {
  import opened Prelude
  import opened Utf8
  import opened Hex

  const PERCENT: Byte := 0x25

  // `b"0123456789ABCDEF"`.
  const HEX: seq<Byte> :=
    [0x30, 0x31, 0x32, 0x33, 0x34, 0x35, 0x36, 0x37, 0x38, 0x39, 0x41, 0x42, 0x43, 0x44, 0x45, 0x46]

  predicate IsAlphanumeric(b: Byte)
  {
    0x30 <= b <= 0x39 || 0x41 <= b <= 0x5A || 0x61 <= b <= 0x7A
  }

  // '-', '_', '.', '~' and the ASCII letters and digits.
  predicate Unreserved(b: Byte)
  {
    IsAlphanumeric(b) || b == 0x2D || b == 0x5F || b == 0x2E || b == 0x7E
  }

  // ---- the encoder that looks digits up in a table ----

  function PctByte(b: Byte): seq<Byte>
  {
    if Unreserved(b) then [b] else [PERCENT, HEX[b / 16], HEX[b % 16]]
  }

  method PctEncode(s: seq<Byte>) returns (out: seq<Byte>)
    ensures out == FlatMap(s, PctByte)
  {
    out := [];
    for i := 0 to |s|
      invariant out == FlatMap(s[..i], PctByte)
    {
      assert s[..i + 1] == s[..i] + [s[i]];
      FlatMapSnoc(s[..i], s[i], PctByte);
      out := out + PctByte(s[i]);
    }
    assert s[..|s|] == s;
  }

  // ---- the encoder that formats digits: upper case, padded to two ----

  function UpperDigit(n: nat): Byte
    requires n < 16
  {
    if n < 10 then 0x30 + n else 0x41 + n - 10
  }

  // The hexadecimal numeral of `n`, without leading zeros.
  function UpperHex(n: nat): (digits: seq<Byte>)
    ensures digits != []
  {
    if n < 16 then [UpperDigit(n)] else UpperHex(n / 16) + [UpperDigit(n % 16)]
  }

  function PadToTwo(digits: seq<Byte>): seq<Byte>
  {
    if |digits| < 2 then seq(2 - |digits|, _ => 0x30) + digits else digits
  }

  function QueryByte(b: Byte): seq<Byte>
  {
    if Unreserved(b) then [b] else [PERCENT] + PadToTwo(UpperHex(b))
  }

  method QueryComponent(s: seq<Byte>) returns (out: seq<Byte>)
    ensures out == FlatMap(s, QueryByte)
  {
    out := [];
    for i := 0 to |s|
      invariant out == FlatMap(s[..i], QueryByte)
    {
      assert s[..i + 1] == s[..i] + [s[i]];
      FlatMapSnoc(s[..i], s[i], QueryByte);
      out := out + QueryByte(s[i]);
    }
    assert s[..|s|] == s;
  }

  lemma TableHoldsDigits(n: nat)
    requires n < 16
    ensures HEX[n] == UpperDigit(n)
  {
  }

  lemma SameByte(b: Byte)
    ensures PctByte(b) == QueryByte(b)
  {
    TableHoldsDigits(b / 16);
    TableHoldsDigits(b % 16);
    if b < 16 {
      assert UpperHex(b) == [UpperDigit(b)];
      assert PadToTwo(UpperHex(b)) == [0x30, UpperDigit(b)];
    } else {
      assert UpperHex(b / 16) == [UpperDigit(b / 16)];
      assert UpperHex(b) == [UpperDigit(b / 16), UpperDigit(b % 16)];
    }
  }

  // The two encoders are the same function.
  lemma {:induction false} EncodersAgree(s: seq<Byte>)
    ensures FlatMap(s, PctByte) == FlatMap(s, QueryByte)
  {
    if s != [] {
      SameByte(s[0]);
      EncodersAgree(s[1..]);
    }
  }

  // ---- the decoder ----

  predicate IsEscape(s: seq<Byte>)
  {
    |s| > 2 && s[0] == PERCENT && HexValue(s[1]).Some? && HexValue(s[2]).Some?
  }

  function EscapedByte(s: seq<Byte>): Byte
    requires IsEscape(s)
  {
    HexValue(s[1]).value * 16 + HexValue(s[2]).value
  }

  // The plain decoder: a well-formed escape becomes its byte, all else stays.
  function Decode(s: seq<Byte>): seq<Byte>
  {
    if s == [] then []
    else if IsEscape(s) then [EscapedByte(s)] + Decode(s[3..])
    else [s[0]] + Decode(s[1..])
  }

  lemma EscapeStep(s: seq<Byte>, idx: nat, out: seq<Byte>)
    requires idx < |s| && IsEscape(s[idx..])
    ensures out + Decode(s[idx..]) == out + [EscapedByte(s[idx..])] + Decode(s[idx + 3..])
  {
    assert s[idx..][3..] == s[idx + 3..];
    Associative(out, [EscapedByte(s[idx..])], Decode(s[idx + 3..]));
  }

  lemma PlainStep(s: seq<Byte>, idx: nat, out: seq<Byte>)
    requires idx < |s| && !IsEscape(s[idx..])
    ensures out + Decode(s[idx..]) == out + [s[idx]] + Decode(s[idx + 1..])
    ensures s[..idx + 1] == s[..idx] + [s[idx]]
  {
    assert s[idx..][1..] == s[idx + 1..];
    Associative(out, [s[idx]], Decode(s[idx + 1..]));
  }

  // What the decoder would return if the input ended at `idx`.
  function SoFar(decoded: Option<seq<Byte>>, s: seq<Byte>, idx: nat): seq<Byte>
    requires idx <= |s|
  {
    if decoded.Some? then decoded.value else s[..idx]
  }

  // The decoder as written: nothing is copied before the first escape.
  method DecodeLazily(s: seq<Byte>) returns (decoded: Option<seq<Byte>>)
    ensures Decode(s) == if decoded.Some? then decoded.value else s
    ensures decoded.Some? <==> |Decode(s)| < |s|
  {
    decoded := None;
    var idx := 0;
    assert s[0..] == s;
    while idx < |s|
      invariant idx <= |s|
      invariant Decode(s) == SoFar(decoded, s, idx) + Decode(s[idx..])
      invariant decoded.Some? ==> |decoded.value| < idx
    {
      if s[idx] == PERCENT && idx + 2 < |s| && HexValue(s[idx + 1]).Some? && HexValue(s[idx + 2]).Some? {
        EscapeStep(s, idx, SoFar(decoded, s, idx));
        decoded := Some(SoFar(decoded, s, idx) + [HexValue(s[idx + 1]).value * 16 + HexValue(s[idx + 2]).value]);
        idx := idx + 3;
      } else {
        PlainStep(s, idx, SoFar(decoded, s, idx));
        if decoded.Some? {
          decoded := Some(decoded.value + [s[idx]]);
        }
        idx := idx + 1;
      }
    }
    assert s[idx..] == [] && s[..idx] == s;
  }

  lemma DecodeFirst(b: Byte, rest: seq<Byte>)
    ensures Decode(PctByte(b) + rest) == [b] + Decode(rest)
  {
    var s := PctByte(b) + rest;
    if Unreserved(b) {
      assert s[0] == b && s[1..] == rest;
    } else {
      TableHoldsDigits(b / 16);
      TableHoldsDigits(b % 16);
      assert s[0] == PERCENT && s[1] == HEX[b / 16] && s[2] == HEX[b % 16] && s[3..] == rest;
    }
  }

  // Decoding inverts encoding on every byte string.
  lemma {:induction false} DecodeInverts(s: seq<Byte>)
    ensures Decode(FlatMap(s, PctByte)) == s
    ensures Decode(FlatMap(s, QueryByte)) == s
  {
    EncodersAgree(s);
    if s != [] {
      DecodeFirst(s[0], FlatMap(s[1..], PctByte));
      DecodeInverts(s[1..]);
      assert [s[0]] + s[1..] == s;
    }
  }

  // ---- on strings ----

  // `lossy` stands for `String::from_utf8_lossy`, used when the decoded bytes are not UTF-8.
  method PercentDecode(input: string, lossy: seq<Byte> -> string) returns (out: string)
    ensures Valid(Decode(Encode(input))) ==> Encode(out) == Decode(Encode(input))
    ensures !Valid(Decode(Encode(input))) ==> out == lossy(Decode(Encode(input)))
  {
    var decoded := DecodeLazily(Encode(input));
    FromUtf8Inverts(input);
    match decoded
    case None => out := input;
    case Some(bytes) =>
      var text := FromUtf8(bytes);
      out := if text.Some? then text.value else lossy(bytes);
  }

  // A recipient that was percent-encoded comes back as it was.
  lemma RecipientSurvives(text: string)
    ensures Decode(Encode(AsciiText(FlatMap(Encode(text), PctByte)))) == Encode(text) && Valid(Encode(text))
  {
    EncodedIsAscii(Encode(text));
    DecodeInverts(Encode(text));
    FromUtf8Inverts(text);
  }

  predicate Ascii(s: seq<Byte>)
  {
    forall i | 0 <= i < |s| :: s[i] < 0x80
  }

  // `char::from` on each byte.
  function AsciiText(s: seq<Byte>): (t: string)
    ensures Ascii(s) ==> Encode(t) == s
  {
    if s == [] then []
    else
      var t := [s[0] as char] + AsciiText(s[1..]);
      assert t[1..] == AsciiText(s[1..]);
      t
  }

  lemma {:induction false} EncodedIsAscii(s: seq<Byte>)
    ensures Ascii(FlatMap(s, PctByte))
  {
    if s != [] {
      EncodedIsAscii(s[1..]);
      assert Ascii(PctByte(s[0])) by {
        if !Unreserved(s[0]) {
          TableHoldsDigits(s[0] / 16);
          TableHoldsDigits(s[0] % 16);
        }
      }
    }
  }

  // ---- what an encoding looks like ----

  // The unreserved characters of section 2.3 of RFC 3986.
  predicate IsUrlSafe(c: char)
  {
    'A' <= c <= 'Z' || 'a' <= c <= 'z' || '0' <= c <= '9' || c in "-._~"
  }

  predicate IsUpperHexDigit(c: char)
  {
    '0' <= c <= '9' || 'A' <= c <= 'F'
  }

  // Either encoder keeps the unreserved characters, and spells any other byte as a
  // percent sign with two digits, letters among them upper-case.
  lemma ByteIsKeptOrSpelled(b: Byte)
    ensures QueryByte(b) == PctByte(b)
    ensures QueryByte(b) == [b] <==> b < 0x80 && IsUrlSafe(b as char)
    ensures QueryByte(b) != [b] ==>
              && |QueryByte(b)| == 3 && QueryByte(b)[0] == '%' as int
              && IsUpperHexDigit(QueryByte(b)[1] as char) && IsUpperHexDigit(QueryByte(b)[2] as char)
  {
    SameByte(b);
    TableHoldsDigits(b / 16);
    TableHoldsDigits(b % 16);
  }

  // So an encoded text holds nothing that means something else in a query.
  lemma {:induction false} EncodedIsUrlSafe(s: seq<Byte>, i: nat)
    requires i < |FlatMap(s, QueryByte)|
    ensures FlatMap(s, QueryByte)[i] < 0x80
    ensures IsUrlSafe(FlatMap(s, QueryByte)[i] as char) || FlatMap(s, QueryByte)[i] == '%' as int
    decreases |s|
  {
    ByteIsKeptOrSpelled(s[0]);
    var first := QueryByte(s[0]);
    if i >= |first| {
      EncodedIsUrlSafe(s[1..], i - |first|);
    }
  }
}
