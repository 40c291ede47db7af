// Turning HTML-ish message bodies into terminal text: entities and tags.
module HtmlText {
  import opened Prelude

  // ---- entities ----

  // A digit of `char::to_digit`.
  function DigitValue(c: char, radix: nat): (d: Option<nat>)
    ensures d.Some? ==> d.value < radix
  {
    var v := if '0' <= c <= '9' then c as int - '0' as int
             else if 'a' <= c <= 'z' then c as int - 'a' as int + 10
             else if 'A' <= c <= 'Z' then c as int - 'A' as int + 10
             else 36;
    if v < radix then Some(v) else None
  }

  const U32_LIMIT: nat := 0x1_0000_0000

  function ParseDigits(s: string, radix: nat, acc: nat): Option<nat>
    decreases |s|
  {
    if s == [] then Some(acc)
    else
      match DigitValue(s[0], radix)
      case None => None
      case Some(d) => if acc * radix + d >= U32_LIMIT then None else ParseDigits(s[1..], radix, acc * radix + d)
  }

  // `u32::from_str_radix`, which also takes a leading plus sign.
  function ParseU32(s: string, radix: nat): Option<nat>
  {
    var digits := if s != [] && s[0] == '+' then s[1..] else s;
    if digits == [] then None else ParseDigits(digits, radix, 0)
  }

  // `char::from_u32`.
  function CharFrom(n: Option<nat>): Option<char>
  {
    if n.Some? && (n.value < 0xD800 || 0xE000 <= n.value < 0x11_0000) then Some(n.value as char) else None
  }

  function DecodeHtmlEntity(entity: string): Option<char>
  {
    if entity == "amp" then Some('&')
    else if entity == "lt" then Some('<')
    else if entity == "gt" then Some('>')
    else if entity == "quot" then Some('"')
    else if entity == "apos" || entity == "#39" then Some('\'')
    else if |entity| >= 2 && entity[0] == '#' && entity[1] in ['x', 'X'] then CharFrom(ParseU32(entity[2..], 16))
    else if entity != [] && entity[0] == '#' then CharFrom(ParseU32(entity[1..], 10))
    else None
  }

  // What one `&...;` becomes: its character, or itself.
  function EntityText(entity: string): string
  {
    var c := DecodeHtmlEntity(entity);
    if c.Some? then [c.value] else ['&'] + entity + [';']
  }

  // Replaces each `&...;` by what `entity` makes of it; an ampersand with no
  // semicolon after it stays.
  function Unescape(text: string, entity: string -> string): string
    decreases |text|, 0
  {
    match Find(text, '&')
    case None => text
    case Some(start) => text[..start] + UnescapeAfter(text[start + 1..], entity)
  }

  // The text that follows an ampersand.
  function UnescapeAfter(after: string, entity: string -> string): string
    decreases |after|, 1
  {
    match Find(after, ';')
    case None => ['&'] + Unescape(after, entity)
    case Some(end) => entity(after[..end]) + Unescape(after[end + 1..], entity)
  }

  function DecodeEntities(text: string): string
  {
    Unescape(text, EntityText)
  }

  method PushDecodedEntities(out: string, text: string) returns (r: string)
    ensures r == out + DecodeEntities(text)
  {
    r := PushUnescaped(out, text, EntityText);
  }

  method PushUnescaped(out: string, text: string, entity: string -> string) returns (r: string)
    ensures r == out + Unescape(text, entity)
  {
    r := out;
    var rest := text;
    while true
      invariant r + Unescape(rest, entity) == out + Unescape(text, entity)
      decreases |rest|
    {
      var start := Find(rest, '&');
      if start.None? {
        break;
      }
      var after := rest[start.value + 1..];
      Associative(r, rest[..start.value], UnescapeAfter(after, entity));
      r := r + rest[..start.value];
      var end := Find(after, ';');
      if end.None? {
        Associative(r, ['&'], Unescape(after, entity));
        r := r + ['&'];
        rest := after;
      } else {
        Associative(r, entity(after[..end.value]), Unescape(after[end.value + 1..], entity));
        r := r + entity(after[..end.value]);
        rest := after[end.value + 1..];
      }
    }
    r := r + rest;
  }

  // ---- tags ----

  function TrimSlashes(s: string): string
  {
    TrimSlashEnd(TrimSlashStart(s))
  }

  function TrimSlashStart(s: string): string
  {
    if s != [] && s[0] == '/' then TrimSlashStart(s[1..]) else s
  }

  function TrimSlashEnd(s: string): string
  {
    if s != [] && s[|s| - 1] == '/' then TrimSlashEnd(s[..|s| - 1]) else s
  }

  function UntilWhitespace(s: string): string
  {
    if s == [] || IsWhitespace(s[0]) then [] else [s[0]] + UntilWhitespace(s[1..])
  }

  // `split_whitespace().next().unwrap_or_default()`.
  function FirstWord(s: string): string
  {
    UntilWhitespace(TrimStart(s))
  }

  predicate EndsWith(s: string, suffix: string)
  {
    |suffix| <= |s| && s[|s| - |suffix|..] == suffix
  }

  function PushNewline(out: string): string
  {
    if EndsWith(out, "\n") then out else out + "\n"
  }

  function TrimSpaces(s: string): string
  {
    if s != [] && s[|s| - 1] == ' ' then TrimSpaces(s[..|s| - 1]) else s
  }

  function PushBlankLine(out: string): string
  {
    var kept := TrimSpaces(out);
    if kept == [] || EndsWith(kept, "\n\n") then kept
    else if EndsWith(kept, "\n") then kept + "\n"
    else kept + "\n\n"
  }

  function PushTag(out: string, tag: string, closing: bool): string
  {
    if tag == "p" || tag == "ul" || tag == "ol" then PushBlankLine(out)
    else if tag == "li" then if closing then PushNewline(out) else PushNewline(out) + "- "
    else if tag == "br" then if closing then out else PushNewline(out)
    else if tag == "code" then out + "`"
    else if tag == "pre" then if closing then PushNewline(out) + "```\n" else PushBlankLine(out) + "```text\n"
    else if tag == "b" || tag == "strong" then out + "**"
    else if tag == "i" || tag == "em" then out + "*"
    else out
  }

  function PushHtmlTag(out: string, raw: string): string
  {
    var inner := Trim(raw);
    if inner == [] || inner[0] == '!' then out
    else PushTag(out, AsciiLower(FirstWord(TrimSlashes(inner))), inner[0] == '/')
  }

  // ---- the renderer ----

  // `tag` appends what a tag stands for; a '<' that no '>' follows stays.
  function RenderTags(out: string, rest: string, tag: (string, string) -> string): string
    decreases |rest|, 0
  {
    match Find(rest, '<')
    case None => out + DecodeEntities(rest)
    case Some(start) => RenderAfter(out + DecodeEntities(rest[..start]), rest[start + 1..], tag)
  }

  // What is rendered from behind a '<'.
  function RenderAfter(text: string, after: string, tag: (string, string) -> string): string
    decreases |after|, 1
  {
    match Find(after, '>')
    case None => RenderTags(text + ['<'], after, tag)
    case Some(end) => RenderTags(tag(text, after[..end]), after[end + 1..], tag)
  }

  function Render(body: string): string
  {
    RenderTags([], body, PushHtmlTag)
  }

  method RenderHtmlishBody(body: string) returns (out: string)
    ensures out == Render(body)
  {
    out := RenderLoop(body, PushHtmlTag);
  }

  method RenderLoop(body: string, tag: (string, string) -> string) returns (out: string)
    ensures out == RenderTags([], body, tag)
  {
    out := [];
    var rest := body;
    while true
      invariant RenderTags(out, rest, tag) == RenderTags([], body, tag)
      decreases |rest|
    {
      var start := Find(rest, '<');
      if start.None? {
        break;
      }
      out := PushDecodedEntities(out, rest[..start.value]);
      var after := rest[start.value + 1..];
      var end := Find(after, '>');
      if end.None? {
        out := out + ['<'];
        rest := after;
      } else {
        out := tag(out, after[..end.value]);
        rest := after[end.value + 1..];
      }
    }
    out := PushDecodedEntities(out, rest);
  }

  // ---- escaping, and rendering what was escaped ----

  // `s` is a way to write `c`: the character itself unless it has a meaning in
  // markup, or an entity for it.
  predicate Spells(s: string, c: char)
  {
    || (s == [c] && c != '&' && c != '<')
    || (|s| >= 2 && s[0] == '&' && s[|s| - 1] == ';' && ';' !in s[1..|s| - 1] && '<' !in s
        && DecodeHtmlEntity(s[1..|s| - 1]) == Some(c))
  }

  predicate SpellsAll(pieces: seq<string>, t: string)
  {
    |pieces| == |t| && forall i | 0 <= i < |t| :: Spells(pieces[i], t[i])
  }

  lemma {:induction false} SpelledHasNoTag(pieces: seq<string>, t: string)
    requires SpellsAll(pieces, t)
    ensures '<' !in Concat(pieces)
    decreases |t|
  {
    if t != [] {
      assert Spells(pieces[0], t[0]);
      SpelledHasNoTag(pieces[1..], t[1..]);
    }
  }

  // A character that is no ampersand passes through.
  lemma PlainFirst(c: char, rest: string, entity: string -> string)
    requires c != '&'
    ensures Unescape([c] + rest, entity) == [c] + Unescape(rest, entity)
  {
    var s := [c] + rest;
    assert s[1..] == rest;
    match Find(rest, '&')
    case None =>
    case Some(k) =>
      assert Find(s, '&') == Some(k + 1);
      assert s[..k + 1] == [c] + rest[..k] && s[k + 2..] == rest[k + 1..];
      Associative([c], rest[..k], UnescapeAfter(rest[k + 1..], entity));
  }

  lemma EntityFirst(name: string, rest: string, entity: string -> string)
    requires ';' !in name
    ensures Unescape(['&'] + name + [';'] + rest, entity) == entity(name) + Unescape(rest, entity)
  {
    var after := name + [';'] + rest;
    Regrouped3(['&'], name, [';'], rest);
    AmpersandFirst(after, entity);
    NameFirst(name, rest, entity);
  }

  lemma Regrouped3(a: string, b: string, c: string, d: string)
    ensures a + b + c + d == a + (b + c + d)
  {
  }

  lemma AmpersandFirst(after: string, entity: string -> string)
    ensures Unescape(['&'] + after, entity) == UnescapeAfter(after, entity)
  {
    var s := ['&'] + after;
    assert Find(s, '&') == Some(0) && s[..0] == [] && s[1..] == after;
    assert [] + UnescapeAfter(after, entity) == UnescapeAfter(after, entity);
  }

  lemma NameFirst(name: string, rest: string, entity: string -> string)
    requires ';' !in name
    ensures UnescapeAfter(name + [';'] + rest, entity) == entity(name) + Unescape(rest, entity)
  {
    var after := name + [';'] + rest;
    FindSplit(name, ';', rest);
    assert after[..|name|] == name && after[|name| + 1..] == rest;
  }

  lemma SpelledFirst(piece: string, c: char, rest: string)
    requires Spells(piece, c)
    ensures DecodeEntities(piece + rest) == [c] + DecodeEntities(rest)
  {
    if piece == [c] && c != '&' {
      PlainFirst(c, rest, EntityText);
    } else {
      var name := piece[1..|piece| - 1];
      assert piece == ['&'] + name + [';'];
      EntityFirst(name, rest, EntityText);
    }
  }

  lemma {:induction false} SpelledDecodes(pieces: seq<string>, t: string)
    requires SpellsAll(pieces, t)
    ensures DecodeEntities(Concat(pieces)) == t
    decreases |t|
  {
    if t != [] {
      SpelledFirst(pieces[0], t[0], Concat(pieces[1..]));
      SpelledDecodes(pieces[1..], t[1..]);
      assert [t[0]] + t[1..] == t;
    }
  }

  // However each character of a text is escaped, rendering gives the text back.
  lemma RenderInvertsEscaping(pieces: seq<string>, t: string)
    requires SpellsAll(pieces, t)
    ensures Render(Concat(pieces)) == t
  {
    SpelledHasNoTag(pieces, t);
    SpelledDecodes(pieces, t);
    assert [] + t == t;
  }

  // The usual escaping of the five markup characters is one such spelling.
  function EscapeChar(c: char): string
  {
    if c == '&' then "&amp;" else if c == '<' then "&lt;" else if c == '>' then "&gt;"
    else if c == '"' then "&quot;" else if c == '\'' then "&#39;" else [c]
  }

  lemma EntitySpells(name: string, c: char)
    requires ';' !in name && '<' !in name && DecodeHtmlEntity(name) == Some(c)
    ensures Spells(['&'] + name + [';'], c)
  {
    var piece := ['&'] + name + [';'];
    assert piece[1..|piece| - 1] == name;
  }

  lemma EscapeSpells(c: char)
    ensures Spells(EscapeChar(c), c)
  {
    if c == '&' {
      EntitySpells("amp", c);
      assert ['&'] + "amp" + [';'] == "&amp;";
    } else if c == '<' {
      EntitySpells("lt", c);
      assert ['&'] + "lt" + [';'] == "&lt;";
    } else if c == '>' {
      EntitySpells("gt", c);
      assert ['&'] + "gt" + [';'] == "&gt;";
    } else if c == '"' {
      EntitySpells("quot", c);
      assert ['&'] + "quot" + [';'] == "&quot;";
    } else if c == '\'' {
      EntitySpells("#39", c);
      assert ['&'] + "#39" + [';'] == "&#39;";
    }
  }

  lemma {:induction false} EscapedIsSpelled(t: string)
    ensures Concat(seq(|t|, i requires 0 <= i < |t| => EscapeChar(t[i]))) == FlatMap(t, EscapeChar)
    decreases |t|
  {
    if t != [] {
      var all := seq(|t|, i requires 0 <= i < |t| => EscapeChar(t[i]));
      var tail := t[1..];
      EscapedIsSpelled(tail);
      assert all[1..] == seq(|tail|, i requires 0 <= i < |tail| => EscapeChar(tail[i]));
    }
  }

  lemma RenderInvertsEscape(t: string)
    ensures Render(FlatMap(t, EscapeChar)) == t
    ensures '<' !in FlatMap(t, EscapeChar)
  {
    var pieces := seq(|t|, i requires 0 <= i < |t| => EscapeChar(t[i]));
    forall i | 0 <= i < |t| ensures Spells(pieces[i], t[i]) {
      EscapeSpells(t[i]);
    }
    EscapedIsSpelled(t);
    RenderInvertsEscaping(pieces, t);
    SpelledHasNoTag(pieces, t);
  }
}
