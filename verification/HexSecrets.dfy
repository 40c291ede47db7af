// Secrets printed one per line as a reference, a tab and the secret in hex.
module HexSecrets {
  import opened Prelude
  import opened Utf8
  import opened TextLines
  import opened Hex

  datatype SecretError = NonUtf8Refs | MalformedLine | OddLengthHex | NonHexByte | NonUtf8Secret

  predicate AllHex(b: seq<Byte>)
  {
    forall i | 0 <= i < |b| :: HexValue(b[i]).Some?
  }

  function Pair(b: seq<Byte>, k: nat): Byte
    requires AllHex(b) && 2 * k + 1 < |b|
  {
    HexValue(b[2 * k]).value * 16 + HexValue(b[2 * k + 1]).value
  }

  // What the decoder promises: an odd length is reported first, then a byte that
  // is no hex digit; otherwise each pair of digits is a byte.
  function Decoded(b: seq<Byte>): (r: Result<seq<Byte>, SecretError>)
  {
    if |b| % 2 != 0 then Err(OddLengthHex)
    else if AllHex(b) then Ok(seq(|b| / 2, k requires 0 <= k < |b| / 2 => Pair(b, k)))
    else Err(NonHexByte)
  }

  method DecodeHexSecret(hex: string) returns (r: Result<seq<Byte>, SecretError>)
    ensures r == Decoded(Encode(hex))
    ensures r.Ok? <==> |Encode(hex)| % 2 == 0 && AllHex(Encode(hex))
    ensures r.Ok? ==> 2 * |r.value| == |Encode(hex)|
  {
    var bytes := Encode(hex);
    if |bytes| % 2 != 0 {
      return Err(OddLengthHex);
    }
    var out := [];
    var idx := 0;
    while idx < |bytes|
      invariant idx == 2 * |out| <= |bytes|
      invariant AllHex(bytes[..idx])
      invariant forall k | 0 <= k < |out| ::
                  && HexValue(bytes[2 * k]).Some? && HexValue(bytes[2 * k + 1]).Some?
                  && out[k] == HexValue(bytes[2 * k]).value * 16 + HexValue(bytes[2 * k + 1]).value
    {
      var hi, lo := HexValue(bytes[idx]), HexValue(bytes[idx + 1]);
      if hi.None? || lo.None? {
        assert !AllHex(bytes);
        return Err(NonHexByte);
      }
      out := out + [hi.value * 16 + lo.value];
      idx := idx + 2;
    }
    assert bytes[..idx] == bytes;
    assert forall k | 0 <= k < |out| :: out[k] == Pair(bytes, k);
    assert out == Decoded(bytes).value;
    r := Ok(out);
  }

  // ---- the hex encoding the decoder inverts, in either case ----

  function DigitChar(n: nat, upper: bool): char
    requires n < 16
  {
    if n < 10 then (0x30 + n) as char else if upper then (0x41 + n - 10) as char else (0x61 + n - 10) as char
  }

  function HexText(b: seq<Byte>, upper: bool): (t: string)
    ensures |t| == 2 * |b|
  {
    if b == [] then [] else [DigitChar(b[0] / 16, upper), DigitChar(b[0] % 16, upper)] + HexText(b[1..], upper)
  }

  lemma {:induction false} HexTextAt(b: seq<Byte>, upper: bool, k: nat)
    requires k < |b|
    ensures HexText(b, upper)[2 * k] == DigitChar(b[k] / 16, upper)
    ensures HexText(b, upper)[2 * k + 1] == DigitChar(b[k] % 16, upper)
    decreases k
  {
    if k > 0 {
      HexTextAt(b[1..], upper, k - 1);
      var tail := HexText(b[1..], upper);
      assert HexText(b, upper) == [DigitChar(b[0] / 16, upper), DigitChar(b[0] % 16, upper)] + tail;
      assert 2 * k == 2 + 2 * (k - 1);
    }
  }

  lemma DigitReads(n: nat, upper: bool)
    requires n < 16
    ensures HexValue(DigitChar(n, upper) as int) == Some(n)
  {
  }

  predicate AsciiChars(s: string)
  {
    forall i | 0 <= i < |s| :: s[i] as int < 0x80
  }

  lemma {:induction false} EncodeAscii(s: string)
    requires AsciiChars(s)
    ensures |Encode(s)| == |s| && forall i | 0 <= i < |s| :: Encode(s)[i] == s[i] as int
  {
    if s != [] {
      EncodeAscii(s[1..]);
      assert Encode(s) == [s[0] as int] + Encode(s[1..]);
    }
  }

  lemma HexTextIsAscii(b: seq<Byte>, upper: bool)
    ensures AsciiChars(HexText(b, upper))
  {
    forall i | 0 <= i < 2 * |b| ensures HexText(b, upper)[i] as int < 0x80 {
      HexTextAt(b, upper, i / 2);
      assert i == 2 * (i / 2) || i == 2 * (i / 2) + 1;
    }
  }

  lemma EncodedDigit(b: seq<Byte>, upper: bool, i: nat)
    requires i < 2 * |b|
    ensures |Encode(HexText(b, upper))| == 2 * |b|
    ensures HexValue(Encode(HexText(b, upper))[i]) == Some(if i % 2 == 0 then b[i / 2] / 16 else b[i / 2] % 16)
  {
    HexTextIsAscii(b, upper);
    EncodeAscii(HexText(b, upper));
    HexTextAt(b, upper, i / 2);
    DigitReads(b[i / 2] / 16, upper);
    DigitReads(b[i / 2] % 16, upper);
    assert i == 2 * (i / 2) + i % 2;
  }

  lemma DecodedPairs(e: seq<Byte>, b: seq<Byte>)
    requires AllHex(e) && |e| == 2 * |b| && forall k | 0 <= k < |b| :: Pair(e, k) == b[k]
    ensures Decoded(e) == Ok(b)
  {
    assert Decoded(e).value == b;
  }

  lemma HexTextAllHex(b: seq<Byte>, upper: bool)
    ensures |Encode(HexText(b, upper))| == 2 * |b| && AllHex(Encode(HexText(b, upper)))
  {
    HexTextIsAscii(b, upper);
    EncodeAscii(HexText(b, upper));
    forall i | 0 <= i < 2 * |b| ensures HexValue(Encode(HexText(b, upper))[i]).Some? {
      EncodedDigit(b, upper, i);
    }
  }

  lemma PairOf(b: seq<Byte>, upper: bool, e: seq<Byte>, k: nat)
    requires k < |b| && e == Encode(HexText(b, upper)) && AllHex(e) && |e| == 2 * |b|
    ensures Pair(e, k) == b[k]
  {
    EncodedDigit(b, upper, 2 * k);
    EncodedDigit(b, upper, 2 * k + 1);
  }

  // Decoding inverts two-digit hex encoding.
  lemma DecodedInverts(b: seq<Byte>, upper: bool)
    ensures Decoded(Encode(HexText(b, upper))) == Ok(b)
  {
    var e := Encode(HexText(b, upper));
    HexTextAllHex(b, upper);
    forall k | 0 <= k < |b| ensures Pair(e, k) == b[k] {
      PairOf(b, upper, e, k);
    }
    DecodedPairs(e, b);
  }

  // ---- the whole output ----

  type Secrets = map<string, string>

  function ParseLine(line: string): (r: Result<(string, string), SecretError>)
    ensures r.Ok? && '\n' !in line ==> Clean(r.value.0)
  {
    match SplitOnce(line, '\t')
    case None => Err(MalformedLine)
    case Some((reference, hex)) =>
      match Decoded(Encode(hex))
      case Err(e) => Err(e)
      case Ok(bytes) =>
        match FromUtf8(bytes)
        case None => Err(NonUtf8Secret)
        case Some(secret) => Ok((reference, secret))
  }

  function ParseLines(lines: seq<string>, out: Secrets): Result<Secrets, SecretError>
    decreases |lines|
  {
    if lines == [] then Ok(out)
    else
      match ParseLine(lines[0])
      case Err(e) => Err(e)
      case Ok((reference, secret)) => ParseLines(lines[1..], out[reference := secret])
  }

  function Parsed(stdout: seq<Byte>): Result<Secrets, SecretError>
  {
    match FromUtf8(stdout)
    case None => Err(NonUtf8Refs)
    case Some(text) => ParseLines(Lines(text), map[])
  }

  method ParseSecretctlManyOutput(stdout: seq<Byte>) returns (r: Result<Secrets, SecretError>)
    ensures r == Parsed(stdout)
  {
    var text := FromUtf8(stdout);
    if text.None? {
      return Err(NonUtf8Refs);
    }
    var lines, out: Secrets := Lines(text.value), map[];
    for i := 0 to |lines|
      invariant ParseLines(lines[i..], out) == ParseLines(lines, map[])
    {
      assert lines[i..][1..] == lines[i + 1..];
      var split := SplitOnce(lines[i], '\t');
      if split.None? {
        return Err(MalformedLine);
      }
      var bytes := DecodeHexSecret(split.value.1);
      if bytes.Err? {
        return Err(bytes.error);
      }
      var secret := FromUtf8(bytes.value);
      if secret.None? {
        return Err(NonUtf8Secret);
      }
      out := out[split.value.0 := secret.value];
    }
    r := Ok(out);
  }

  // ---- printing, and what parsing makes of it ----

  datatype Entry = Entry(reference: string, secret: string)

  predicate Clean(reference: string)
  {
    '\t' !in reference && '\n' !in reference
  }

  function PrintLine(e: Entry, upper: bool): string
  {
    e.reference + ['\t'] + HexText(Encode(e.secret), upper)
  }

  function Print(entries: seq<Entry>, upper: bool): string
  {
    if entries == [] then [] else PrintLine(entries[0], upper) + ['\n'] + Print(entries[1..], upper)
  }

  // Later entries replace earlier ones.
  function MapOf(entries: seq<Entry>, out: Secrets): Secrets
    decreases |entries|
  {
    if entries == [] then out else MapOf(entries[1..], out[entries[0].reference := entries[0].secret])
  }

  lemma HexTextHasNoBreaks(b: seq<Byte>, upper: bool)
    ensures forall c <- HexText(b, upper) :: c != '\n' && c != '\r' && c != '\t'
  {
    forall i | 0 <= i < 2 * |b| ensures HexText(b, upper)[i] !in ['\n', '\r', '\t'] {
      HexTextAt(b, upper, i / 2);
      assert i == 2 * (i / 2) || i == 2 * (i / 2) + 1;
    }
  }

  lemma PrintedLineIsOneLine(reference: string, hex: string)
    requires Clean(reference) && forall c <- hex :: c != '\n' && c != '\r'
    ensures
      var line := reference + ['\t'] + hex;
      '\n' !in line && StripCr(line) == line
  {
    var line := reference + ['\t'] + hex;
    forall c <- line ensures c != '\n' {
      assert c in reference || c == '\t' || c in hex;
    }
    assert line[|line| - 1] == if hex == [] then '\t' else hex[|hex| - 1];
    assert hex != [] ==> hex[|hex| - 1] in hex;
  }

  lemma ParseLineOf(reference: string, hex: string, secret: string)
    requires Clean(reference) && Decoded(Encode(hex)) == Ok(Encode(secret))
    ensures ParseLine(reference + ['\t'] + hex) == Ok((reference, secret))
  {
    SplitOnceAt(reference, '\t', hex);
    FromUtf8Inverts(secret);
  }

  lemma ParsePrintedLine(e: Entry, upper: bool)
    requires Clean(e.reference)
    ensures '\n' !in PrintLine(e, upper) && StripCr(PrintLine(e, upper)) == PrintLine(e, upper)
    ensures ParseLine(PrintLine(e, upper)) == Ok((e.reference, e.secret))
  {
    var bytes := Encode(e.secret);
    HexTextHasNoBreaks(bytes, upper);
    PrintedLineIsOneLine(e.reference, HexText(bytes, upper));
    DecodedInverts(bytes, upper);
    ParseLineOf(e.reference, HexText(bytes, upper), e.secret);
  }

  lemma {:induction false} ParsePrinted(entries: seq<Entry>, upper: bool, out: Secrets)
    requires forall e <- entries :: Clean(e.reference)
    ensures ParseLines(Lines(Print(entries, upper)), out) == Ok(MapOf(entries, out))
    decreases |entries|
  {
    if entries != [] {
      var e, rest := entries[0], Print(entries[1..], upper);
      ParsePrintedLine(e, upper);
      LinesCons(PrintLine(e, upper), rest);
      ParsePrinted(entries[1..], upper, out[e.reference := e.secret]);
      var lines := [PrintLine(e, upper)] + Lines(rest);
      assert lines[1..] == Lines(rest);
    }
  }

  lemma {:induction false} ParsedKeysAreClean(lines: seq<string>, out: Secrets)
    requires forall line <- lines :: '\n' !in line
    requires forall k <- out :: Clean(k)
    ensures ParseLines(lines, out).Ok? ==> forall k <- ParseLines(lines, out).value :: Clean(k)
    decreases |lines|
  {
    if lines != [] && ParseLine(lines[0]).Ok? {
      var (reference, secret) := ParseLine(lines[0]).value;
      ParsedKeysAreClean(lines[1..], out[reference := secret]);
    }
  }

  lemma {:induction false} MapOfHasAll(entries: seq<Entry>, out: Secrets, reference: string)
    requires reference in out || exists e <- entries :: e.reference == reference
    ensures reference in MapOf(entries, out)
    decreases |entries|
  {
    if entries != [] {
      var e := entries[0];
      if reference !in out && e.reference != reference {
        var f :| f in entries && f.reference == reference;
        assert f in entries[1..];
      }
      MapOfHasAll(entries[1..], out[e.reference := e.secret], reference);
    }
  }

  // Parsing what was printed gives back the map exactly when no reference holds
  // a tab or a newline.
  lemma PrintedComesBack(entries: seq<Entry>, upper: bool)
    ensures Parsed(Encode(Print(entries, upper))) == Ok(MapOf(entries, map[]))
        <==> forall e <- entries :: Clean(e.reference)
  {
    var text := Print(entries, upper);
    FromUtf8Inverts(text);
    if forall e <- entries :: Clean(e.reference) {
      ParsePrinted(entries, upper, map[]);
    } else {
      var e :| e in entries && !Clean(e.reference);
      MapOfHasAll(entries, map[], e.reference);
      ParsedKeysAreClean(Lines(text), map[]);
    }
  }

  // ---- what is refused, and why ----

  predicate HexDigitByte(b: Byte)
  {
    '0' as int <= b <= '9' as int || 'a' as int <= b <= 'f' as int || 'A' as int <= b <= 'F' as int
  }

  // A line without a tab is malformed. Behind the first tab an odd number of bytes
  // is reported before a byte that is no digit, and that before digits that spell
  // no text.
  lemma LineIsRefusedExactlyWhen(reference: string, hex: string)
    requires '\t' !in reference
    ensures ParseLine(reference) == Err(MalformedLine)
    ensures
      var r, b := ParseLine(reference + ['\t'] + hex), Encode(hex);
      && (r == Err(OddLengthHex) <==> |b| % 2 == 1)
      && (r == Err(NonHexByte) <==> |b| % 2 == 0 && exists i | 0 <= i < |b| :: !HexDigitByte(b[i]))
      && (r == Err(NonUtf8Secret) <==> |b| % 2 == 0 && AllHex(b) && !Valid(Decoded(b).value))
      && (r.Ok? ==> r.value.0 == reference)
  {
    SplitOnceAt(reference, '\t', hex);
    assert forall b: Byte :: HexValue(b).Some? <==> HexDigitByte(b);
  }

  // The first line that is refused decides; if none is, the lines are read in turn.
  lemma {:induction false} FirstRefusalDecides(lines: seq<string>, out: Secrets, i: nat)
    requires i < |lines| && ParseLine(lines[i]).Err? && forall j | 0 <= j < i :: ParseLine(lines[j]).Ok?
    ensures ParseLines(lines, out) == Err(ParseLine(lines[i]).error)
    decreases i
  {
    if i > 0 {
      var (reference, secret) := ParseLine(lines[0]).value;
      FirstRefusalDecides(lines[1..], out[reference := secret], i - 1);
    }
  }

  lemma {:induction false} ReadWhenNoneIsRefused(lines: seq<string>, out: Secrets)
    requires forall line <- lines :: ParseLine(line).Ok?
    ensures ParseLines(lines, out).Ok?
    decreases |lines|
  {
    if lines != [] {
      var (reference, secret) := ParseLine(lines[0]).value;
      ReadWhenNoneIsRefused(lines[1..], out[reference := secret]);
    }
  }

  lemma OutputIsText(stdout: seq<Byte>)
    ensures Parsed(stdout) == Err(NonUtf8Refs) <==> !Valid(stdout)
  {
    if Valid(stdout) {
      NeverBlamesReferences(Lines(FromUtf8(stdout).value), map[]);
    }
  }

  lemma {:induction false} NeverBlamesReferences(lines: seq<string>, out: Secrets)
    ensures ParseLines(lines, out) != Err(NonUtf8Refs)
    decreases |lines|
  {
    if lines != [] && ParseLine(lines[0]).Ok? {
      var (reference, secret) := ParseLine(lines[0]).value;
      NeverBlamesReferences(lines[1..], out[reference := secret]);
    }
  }
}
