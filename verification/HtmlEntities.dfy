// Numeric entities: every character can be written by its number, in decimal or in
// hexadecimal, and no other number stands for one.
module HtmlEntities {
  import opened Prelude
  import opened HtmlText

  function Digit(n: nat, upper: bool): char
    requires n < 16
  {
    if n < 10 then ('0' as int + n) as char
    else if upper then ('A' as int + n - 10) as char
    else ('a' as int + n - 10) as char
  }

  // The numeral of `n`, without leading zeros.
  function Numeral(n: nat, radix: nat, upper: bool): (s: string)
    requires 2 <= radix <= 16
    ensures s != []
  {
    if n < radix then [Digit(n, upper)] else Numeral(n / radix, radix, upper) + [Digit(n % radix, upper)]
  }

  lemma DigitReads(n: nat, radix: nat, upper: bool)
    requires n < radix <= 16
    ensures DigitValue(Digit(n, upper), radix) == Some(n)
  {
  }

  // One more digit read.
  function Then(read: Option<nat>, c: char, radix: nat): Option<nat>
  {
    match read
    case None => None
    case Some(v) =>
      match DigitValue(c, radix)
      case None => None
      case Some(d) => if v * radix + d >= U32_LIMIT then None else Some(v * radix + d)
  }

  lemma {:induction false} ParseSnoc(s: string, c: char, radix: nat, acc: nat)
    ensures ParseDigits(s + [c], radix, acc) == Then(ParseDigits(s, radix, acc), c, radix)
    decreases |s|
  {
    var all := s + [c];
    if s == [] {
      assert all[1..] == [];
    } else {
      assert all[1..] == s[1..] + [c];
      match DigitValue(s[0], radix)
      case None =>
      case Some(d) =>
        if acc * radix + d < U32_LIMIT {
          ParseSnoc(s[1..], c, radix, acc * radix + d);
        }
    }
  }

  // The numeral of a number with more than one digit, by its last one.
  lemma NumeralSplits(n: nat, radix: nat, upper: bool) returns (q: nat, d: nat)
    requires 2 <= radix <= 16 && radix <= n
    ensures q < n && d < radix && n == q * radix + d
    ensures Numeral(n, radix, upper) == Numeral(q, radix, upper) + [Digit(d, upper)]
  {
    q, d := n / radix, n % radix;
  }

  lemma LastDigitReads(s: string, q: nat, d: nat, n: nat, radix: nat, upper: bool)
    requires d < radix <= 16 && n == q * radix + d < U32_LIMIT && ParseDigits(s, radix, 0) == Some(q)
    ensures ParseDigits(s + [Digit(d, upper)], radix, 0) == Some(n)
  {
    DigitReads(d, radix, upper);
    ParseSnoc(s, Digit(d, upper), radix, 0);
  }

  lemma {:induction false} NumeralReads(n: nat, radix: nat, upper: bool)
    requires 2 <= radix <= 16 && n < U32_LIMIT
    ensures ParseDigits(Numeral(n, radix, upper), radix, 0) == Some(n)
    decreases n
  {
    if n < radix {
      DigitReads(n, radix, upper);
      assert [Digit(n, upper)][1..] == [];
    } else {
      var q, d := NumeralSplits(n, radix, upper);
      NumeralReads(q, radix, upper);
      LastDigitReads(Numeral(q, radix, upper), q, d, n, radix, upper);
    }
  }

  predicate IsSign(c: char)
  {
    c == '+' || c == 'x' || c == 'X'
  }

  lemma DigitIsNoSign(n: nat, upper: bool)
    requires n < 16
    ensures !IsSign(Digit(n, upper))
  {
  }

  lemma {:induction false} NumeralStarts(n: nat, radix: nat, upper: bool)
    requires 2 <= radix <= 16
    ensures !IsSign(Numeral(n, radix, upper)[0])
    decreases n
  {
    if n < radix {
      DigitIsNoSign(n, upper);
    } else {
      var q, d := NumeralSplits(n, radix, upper);
      NumeralStarts(q, radix, upper);
    }
  }

  lemma NumeralIsU32(n: nat, radix: nat, upper: bool)
    requires 2 <= radix <= 16 && n < U32_LIMIT
    ensures ParseU32(Numeral(n, radix, upper), radix) == Some(n)
  {
    NumeralReads(n, radix, upper);
    NumeralStarts(n, radix, upper);
  }

  // The numbers of Unicode scalar values.
  predicate IsScalarValue(n: nat)
  {
    n < 0xD800 || 0xE000 <= n <= 0x10FFFF
  }

  lemma DecimalIs(digits: string, n: nat)
    requires digits != [] && !IsSign(digits[0]) && ParseU32(digits, 10) == Some(n) && ['#'] + digits != "#39"
    ensures DecodeHtmlEntity(['#'] + digits) == if IsScalarValue(n) then Some(n as char) else None
  {
    var entity := ['#'] + digits;
    assert entity[0] == '#' && entity[1] == digits[0] && entity[1..] == digits;
  }

  lemma HexIs(x: char, digits: string, n: nat)
    requires x == 'x' || x == 'X'
    requires digits != [] && ParseU32(digits, 16) == Some(n)
    ensures DecodeHtmlEntity(['#', x] + digits) == if IsScalarValue(n) then Some(n as char) else None
  {
    var entity := ['#', x] + digits;
    assert entity[0] == '#' && entity[1] == x && entity[2..] == digits;
  }

  lemma Apostrophe(digits: string, n: nat)
    requires ['#'] + digits == "#39" && ParseU32(digits, 10) == Some(n)
    ensures n == 39 && DecodeHtmlEntity("#39") == Some(39 as char)
  {
    assert digits == (['#'] + digits)[1..] == "39";
    assert "39"[1..] == "9" && "9"[1..] == [];
    assert ParseDigits("9", 10, 3) == ParseDigits([], 10, 39);
    assert ParseDigits("39", 10, 0) == ParseDigits("9", 10, 3);
  }

  // Written by its number a character comes back, and a number that is no
  // character's stays as it was written.
  lemma NumberedCharactersDecode(n: nat, x: char, upper: bool)
    requires n < U32_LIMIT && (x == 'x' || x == 'X')
    ensures
      var c := if IsScalarValue(n) then Some(n as char) else None;
      && DecodeHtmlEntity(['#'] + Numeral(n, 10, false)) == c
      && DecodeHtmlEntity(['#', x] + Numeral(n, 16, upper)) == c
  {
    var decimal, hex := Numeral(n, 10, false), Numeral(n, 16, upper);
    NumeralIsU32(n, 16, upper);
    HexIs(x, hex, n);
    NumeralIsU32(n, 10, false);
    NumeralStarts(n, 10, false);
    if ['#'] + decimal == "#39" {
      Apostrophe(decimal, n);
    } else {
      DecimalIs(decimal, n);
    }
  }

  // A plus sign before the number is taken, as the library does.
  lemma PlusIsTaken(digits: string, radix: nat)
    requires digits != [] && digits[0] != '+'
    ensures ParseU32(['+'] + digits, radix) == ParseU32(digits, radix)
  {
    assert (['+'] + digits)[1..] == digits;
  }

  // The names, and no others.
  lemma NamedCharactersDecode(name: string)
    ensures DecodeHtmlEntity("amp") == Some('&') && DecodeHtmlEntity("lt") == Some('<') && DecodeHtmlEntity("gt") == Some('>')
    ensures DecodeHtmlEntity("quot") == Some('"') && DecodeHtmlEntity("apos") == Some('\'')
    ensures name !in {"amp", "lt", "gt", "quot", "apos"} && (name == [] || name[0] != '#') ==> DecodeHtmlEntity(name) == None
  {
  }

  // What stands for no character stays as it was written.
  lemma UnknownEntityStays(name: string, rest: string)
    requires ';' !in name && DecodeHtmlEntity(name).None?
    ensures DecodeEntities(['&'] + name + [';'] + rest) == (['&'] + name + [';']) + DecodeEntities(rest)
  {
    EntityFirst(name, rest, EntityText);
  }

  // A text with no semicolon holds no entity, and is left as it is.
  lemma {:induction false} NoEntityNoChange(t: string, entity: string -> string)
    requires ';' !in t
    ensures Unescape(t, entity) == t
    decreases |t|
  {
    match Find(t, '&')
    case None =>
    case Some(k) =>
      var after := t[k + 1..];
      assert forall c <- after :: c in t;
      NoEntityNoChange(after, entity);
      StrayAmpersand(t, k, entity);
  }

  lemma StrayAmpersand(t: string, k: nat, entity: string -> string)
    requires Find(t, '&') == Some(k) && ';' !in t[k + 1..] && Unescape(t[k + 1..], entity) == t[k + 1..]
    ensures Unescape(t, entity) == t
  {
    assert Find(t[k + 1..], ';').None?;
    assert t == t[..k] + (['&'] + t[k + 1..]);
  }

  lemma StrayBracket(out: string, t: string, k: nat, tag: (string, string) -> string)
    requires Find(t, '<') == Some(k) && '>' !in t[k + 1..] && DecodeEntities(t[..k]) == t[..k]
    ensures RenderTags(out, t, tag) == RenderTags(out + t[..k] + ['<'], t[k + 1..], tag)
  {
    assert Find(t[k + 1..], '>').None?;
  }

  // With no closing bracket either it holds no markup at all.
  lemma {:induction false} NoMarkupNoChange(out: string, t: string, tag: (string, string) -> string)
    requires ';' !in t && '>' !in t
    ensures RenderTags(out, t, tag) == out + t
    decreases |t|
  {
    match Find(t, '<')
    case None => NoEntityNoChange(t, EntityText);
    case Some(k) =>
      var text, after := out + t[..k], t[k + 1..];
      assert forall c <- after :: c in t;
      NoEntityNoChange(t[..k], EntityText);
      StrayBracket(out, t, k, tag);
      NoMarkupNoChange(text + ['<'], after, tag);
      Rejoined(out, t, k);
  }

  lemma Rejoined(out: string, t: string, k: nat)
    requires k < |t| && t[k] == '<'
    ensures out + t[..k] + ['<'] + t[k + 1..] == out + t
  {
  }
}
