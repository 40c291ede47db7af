// What tags stand for: a marked-up document renders to the Markdown of the same
// document, however it is nested, and its tags are recognised however they are written.
module TagRendering {
  import opened Prelude
  import opened HtmlText

  // ---- recognising a tag ----

  // A tag's name: no whitespace, no slash, and no comment.
  predicate IsName(name: string)
  {
    name != [] && name[0] != '!' && forall c <- name :: !IsWhitespace(c) && c != '/' && c != '<' && c != '>'
  }

  // What may follow the name inside a tag.
  predicate IsAttributes(attributes: string)
  {
    attributes != [] ==> IsWhitespace(attributes[0]) || attributes[0] == '/'
  }

  lemma {:induction false} TrimEndKeepsName(name: string, attributes: string) returns (kept: string)
    requires IsName(name) && IsAttributes(attributes)
    ensures TrimEnd(name + attributes) == name + kept && IsAttributes(kept)
    decreases |attributes|
  {
    var s := name + attributes;
    assert s[|s| - 1] == if attributes == [] then name[|name| - 1] else attributes[|attributes| - 1];
    if attributes == [] || !IsWhitespace(attributes[|attributes| - 1]) {
      assert attributes == [] ==> name[|name| - 1] in name;
      kept := attributes;
    } else {
      assert s[..|s| - 1] == name + attributes[..|attributes| - 1];
      kept := TrimEndKeepsName(name, attributes[..|attributes| - 1]);
    }
  }

  lemma {:induction false} SlashEndKeepsName(name: string, attributes: string) returns (kept: string)
    requires IsName(name) && IsAttributes(attributes)
    ensures TrimSlashEnd(name + attributes) == name + kept && IsAttributes(kept)
    ensures kept != [] ==> kept[|kept| - 1] != '/'
    decreases |attributes|
  {
    var s := name + attributes;
    assert s[|s| - 1] == if attributes == [] then name[|name| - 1] else attributes[|attributes| - 1];
    if attributes == [] || attributes[|attributes| - 1] != '/' {
      assert attributes == [] ==> name[|name| - 1] in name;
      kept := attributes;
    } else {
      assert s[..|s| - 1] == name + attributes[..|attributes| - 1];
      kept := SlashEndKeepsName(name, attributes[..|attributes| - 1]);
    }
  }

  lemma {:induction false} WordIsName(name: string, rest: string)
    requires (forall c <- name :: !IsWhitespace(c)) && (rest != [] ==> IsWhitespace(rest[0]))
    ensures UntilWhitespace(name + rest) == name
    decreases |name|
  {
    if name == [] {
      assert name + rest == rest;
    } else {
      assert (name + rest)[1..] == name[1..] + rest;
      WordIsName(name[1..], rest);
    }
  }

  // Opened, closed, or closing itself; in letters of either case; with attributes
  // or without: a tag is known by its name.
  lemma TagIsKnownByName(out: string, name: string, attributes: string)
    requires IsName(name) && IsAttributes(attributes) && (attributes != [] ==> IsWhitespace(attributes[0]))
    ensures PushHtmlTag(out, name + attributes) == PushTag(out, AsciiLower(name), false)
    ensures PushHtmlTag(out, ['/'] + (name + attributes)) == PushTag(out, AsciiLower(name), true)
  {
    NamedTag(out, name, attributes);
    ClosingTag(out, name, attributes);
  }

  lemma NameStays(name: string, attributes: string) returns (kept: string)
    requires IsName(name) && IsAttributes(attributes) && (attributes != [] ==> IsWhitespace(attributes[0]))
    ensures TrimEnd(name + attributes) == name + kept && (kept != [] ==> IsWhitespace(kept[0]))
    ensures FirstWord(TrimSlashEnd(name + kept)) == name
    ensures name + kept != [] && (name + kept)[0] == name[0] != '/'
  {
    kept := TrimEndKeepsName(name, attributes);
    assert kept <= attributes by {
      assert name + kept <= name + attributes;
      assert (name + kept)[|name|..] == kept && (name + attributes)[|name|..] == attributes;
    }
    var word := SlashEndKeepsName(name, kept);
    assert word <= kept by {
      SlashEndIsPrefix(name + kept);
      assert (name + word)[|name|..] == word && (name + kept)[|name|..] == kept;
    }
    WordIsName(name, word);
    assert name[0] in name && (name + word)[0] == name[0];
  }

  lemma {:induction false} SlashEndIsPrefix(s: string)
    ensures TrimSlashEnd(s) <= s
  {
    if s != [] && s[|s| - 1] == '/' {
      SlashEndIsPrefix(s[..|s| - 1]);
    }
  }

  lemma NamedTag(out: string, name: string, attributes: string)
    requires IsName(name) && IsAttributes(attributes) && (attributes != [] ==> IsWhitespace(attributes[0]))
    ensures PushHtmlTag(out, name + attributes) == PushTag(out, AsciiLower(name), false)
  {
    var kept := NameStays(name, attributes);
    assert name[0] in name && (name + attributes)[0] == name[0];
    TrimIs(name + attributes, name + kept);
    OpenTag(out, name + attributes, name + kept, name);
  }

  lemma OpenTag(out: string, raw: string, inner: string, name: string)
    requires Trim(raw) == inner && inner != [] && inner[0] != '/' && inner[0] != '!' && FirstWord(TrimSlashEnd(inner)) == name
    ensures PushHtmlTag(out, raw) == PushTag(out, AsciiLower(name), false)
  {
    assert TrimSlashStart(inner) == inner;
    TagIs(out, raw, name);
  }

  lemma TrimIs(s: string, t: string)
    requires (s != [] ==> !IsWhitespace(s[0])) && TrimEnd(s) == t
    ensures Trim(s) == t
  {
    assert TrimStart(s) == s;
  }

  lemma ClosingTrim(inner: string)
    requires TrimEnd(inner) != []
    ensures Trim(['/'] + inner) == ['/'] + TrimEnd(inner)
  {
    TrimEndAfter('/', inner);
    TrimIs(['/'] + inner, ['/'] + TrimEnd(inner));
  }

  lemma SlashOff(inner: string)
    requires inner != [] && inner[0] != '/'
    ensures TrimSlashes(['/'] + inner) == TrimSlashEnd(inner)
  {
    assert (['/'] + inner)[1..] == inner;
    assert TrimSlashStart(inner) == inner;
  }

  lemma TagIs(out: string, raw: string, tag: string)
    requires Trim(raw) != [] && Trim(raw)[0] != '!' && tag == FirstWord(TrimSlashes(Trim(raw)))
    ensures PushHtmlTag(out, raw) == PushTag(out, AsciiLower(tag), Trim(raw)[0] == '/')
  {
  }

  lemma ClosingTag(out: string, name: string, attributes: string)
    requires IsName(name) && IsAttributes(attributes) && (attributes != [] ==> IsWhitespace(attributes[0]))
    ensures PushHtmlTag(out, ['/'] + (name + attributes)) == PushTag(out, AsciiLower(name), true)
  {
    var kept := NameStays(name, attributes);
    ClosingTrim(name + attributes);
    ClosedTag(out, ['/'] + (name + attributes), name + kept, name);
  }

  lemma ClosedTag(out: string, raw: string, inner: string, name: string)
    requires Trim(raw) == ['/'] + inner && inner != [] && inner[0] != '/' && FirstWord(TrimSlashEnd(inner)) == name
    ensures PushHtmlTag(out, raw) == PushTag(out, AsciiLower(name), true)
  {
    SlashOff(inner);
    TagIs(out, raw, name);
  }

  lemma {:induction false} TrimEndAfter(c: char, s: string)
    requires TrimEnd(s) != []
    ensures TrimEnd([c] + s) == [c] + TrimEnd(s)
    decreases |s|
  {
    var t := [c] + s;
    assert t[|t| - 1] == s[|s| - 1];
    if IsWhitespace(s[|s| - 1]) {
      assert t[..|t| - 1] == [c] + s[..|s| - 1];
      TrimEndAfter(c, s[..|s| - 1]);
    }
  }

  // ---- what the renderer makes of text, and of one tag ----

  lemma FindAfter(front: string, tail: string, c: char)
    requires c !in front
    ensures Find(front + tail, c) == match Find(tail, c) case None => None case Some(k) => Some(|front| + k)
  {
    var s := front + tail;
    forall i | 0 <= i < |front| ensures s[i] != c {
      assert s[i] in front;
    }
    match Find(tail, c)
    case None =>
      forall i | |front| <= i < |s| ensures s[i] != c {
        assert s[i] == tail[i - |front|];
      }
    case Some(k) =>
      FirstAt(s, c, |front| + k);
  }

  lemma FirstAt(s: string, c: char, k: nat)
    requires k < |s| && s[k] == c && forall i | 0 <= i < k :: s[i] != c
    ensures Find(s, c) == Some(k)
  {
    assert s == s[..k] + [c] + s[k + 1..];
    FindSplit(s[..k], c, s[k + 1..]);
  }

  lemma {:induction false} SpelledDecodesBefore(pieces: seq<string>, t: string, rest: string)
    requires SpellsAll(pieces, t)
    ensures DecodeEntities(Concat(pieces) + rest) == t + DecodeEntities(rest)
    decreases |t|
  {
    if t == [] {
      assert [] + rest == rest;
    } else {
      var more := Concat(pieces[1..]);
      assert Spells(pieces[0], t[0]);
      Associative(pieces[0], more, rest);
      SpelledFirst(pieces[0], t[0], more + rest);
      SpelledDecodesBefore(pieces[1..], t[1..], rest);
      Associative([t[0]], t[1..], DecodeEntities(rest));
      assert [t[0]] + t[1..] == t;
    }
  }

  lemma NoTagLeft(out: string, rest: string, tag: (string, string) -> string)
    requires Find(rest, '<').None?
    ensures RenderTags(out, rest, tag) == out + DecodeEntities(rest)
  {
  }

  lemma UntilTag(out: string, rest: string, k: nat, tag: (string, string) -> string)
    requires Find(rest, '<') == Some(k)
    ensures RenderTags(out, rest, tag) == RenderAfter(out + DecodeEntities(rest[..k]), rest[k + 1..], tag)
  {
  }

  lemma NothingDecodes(out: string)
    ensures out + DecodeEntities([]) == out
  {
    assert DecodeEntities([]) == [];
  }

  // Text up to a tag is taken over first.
  lemma TextThenTag(out: string, rest: string, k: nat, tag: (string, string) -> string)
    requires Find(rest, '<') == Some(k)
    ensures RenderTags(out, rest, tag) == RenderTags(out + DecodeEntities(rest[..k]), rest[k..], tag)
  {
    var text, from := out + DecodeEntities(rest[..k]), rest[k..];
    assert Find(from, '<') == Some(0) && from[..0] == [] && from[1..] == rest[k + 1..];
    UntilTag(out, rest, k, tag);
    UntilTag(text, from, 0, tag);
    NothingDecodes(text);
  }

  lemma TakenAtTheEnd(out: string, e: string, t: string, tail: string, tag: (string, string) -> string)
    requires '<' !in e && Find(tail, '<').None? && DecodeEntities(e + tail) == t + DecodeEntities(tail)
    ensures RenderTags(out, e + tail, tag) == RenderTags(out + t, tail, tag)
  {
    FindAfter(e, tail, '<');
    NoTagLeft(out, e + tail, tag);
    NoTagLeft(out + t, tail, tag);
    Associative(out, t, DecodeEntities(tail));
  }

  lemma SplitBehind(e: string, tail: string, k: nat)
    requires k <= |tail|
    ensures (e + tail)[..|e| + k] == e + tail[..k] && (e + tail)[|e| + k..] == tail[k..]
  {
  }

  // Two renderings that come to the same text before the same tag.
  lemma SameBeforeTag(a: string, x: string, b: string, y: string, i: nat, j: nat, tag: (string, string) -> string)
    requires Find(x, '<') == Some(i) && Find(y, '<') == Some(j) && x[i..] == y[j..]
    requires a + DecodeEntities(x[..i]) == b + DecodeEntities(y[..j])
    ensures RenderTags(a, x, tag) == RenderTags(b, y, tag)
  {
    TextThenTag(a, x, i, tag);
    TextThenTag(b, y, j, tag);
  }

  lemma TakenBeforeTag(out: string, e: string, t: string, tail: string, k: nat, tag: (string, string) -> string)
    requires '<' !in e && Find(tail, '<') == Some(k) && DecodeEntities(e + tail[..k]) == t + DecodeEntities(tail[..k])
    ensures RenderTags(out, e + tail, tag) == RenderTags(out + t, tail, tag)
  {
    FindAfter(e, tail, '<');
    SplitBehind(e, tail, k);
    Associative(out, t, DecodeEntities(tail[..k]));
    SameBeforeTag(out, e + tail, out + t, tail, |e| + k, k, tag);
  }

  lemma SpelledRenders(out: string, pieces: seq<string>, t: string, tail: string, tag: (string, string) -> string)
    requires SpellsAll(pieces, t)
    ensures RenderTags(out, Concat(pieces) + tail, tag) == RenderTags(out + t, tail, tag)
  {
    SpelledHasNoTag(pieces, t);
    match Find(tail, '<')
    case None =>
      SpelledDecodesBefore(pieces, t, tail);
      TakenAtTheEnd(out, Concat(pieces), t, tail, tag);
    case Some(k) =>
      SpelledDecodesBefore(pieces, t, tail[..k]);
      TakenBeforeTag(out, Concat(pieces), t, tail, k, tag);
  }

  // Escaped text is taken over as it was before escaping.
  lemma TextRenders(out: string, t: string, tail: string, tag: (string, string) -> string)
    ensures RenderTags(out, FlatMap(t, EscapeChar) + tail, tag) == RenderTags(out + t, tail, tag)
  {
    var pieces := seq(|t|, i requires 0 <= i < |t| => EscapeChar(t[i]));
    forall i | 0 <= i < |t| ensures Spells(pieces[i], t[i]) {
      EscapeSpells(t[i]);
    }
    EscapedIsSpelled(t);
    SpelledRenders(out, pieces, t, tail, tag);
  }

  function Bracketed(raw: string): string
  {
    ['<'] + (raw + ['>'])
  }

  lemma TagRenders(out: string, raw: string, tail: string, tag: (string, string) -> string)
    requires '>' !in raw
    ensures RenderTags(out, Bracketed(raw) + tail, tag) == RenderTags(tag(out, raw), tail, tag)
  {
    var rest, after := Bracketed(raw) + tail, raw + ['>'] + tail;
    assert rest == ['<'] + after && rest[..0] == [] && rest[1..] == after;
    assert Find(rest, '<') == Some(0);
    FindSplit(raw, '>', tail);
    assert after[..|raw|] == raw && after[|raw| + 1..] == tail;
    assert DecodeEntities([]) == [] && out + [] == out;
  }

  // ---- documents ----

  datatype Style = Bold | Strong | Italic | Emphasis | Code

  // Running text: plain stretches, and stretches in a style, nested at will.
  datatype Inline = End | Plain(text: string, rest: Inline) | Styled(style: Style, inner: Inline, rest: Inline)

  function Name(style: Style): string
  {
    match style
    case Bold => "b"
    case Strong => "strong"
    case Italic => "i"
    case Emphasis => "em"
    case Code => "code"
  }

  function Mark(style: Style): string
  {
    match style
    case Bold => "**"
    case Strong => "**"
    case Italic => "*"
    case Emphasis => "*"
    case Code => "`"
  }

  function Html(d: Inline): string
  {
    match d
    case End => []
    case Plain(text, rest) => FlatMap(text, EscapeChar) + Html(rest)
    case Styled(style, inner, rest) =>
      Bracketed(Name(style)) + (Html(inner) + (Bracketed(['/'] + Name(style)) + Html(rest)))
  }

  function Markdown(d: Inline): string
  {
    match d
    case End => []
    case Plain(text, rest) => text + Markdown(rest)
    case Styled(style, inner, rest) => Mark(style) + (Markdown(inner) + (Mark(style) + Markdown(rest)))
  }

  lemma StyleNames(style: Style)
    ensures IsName(Name(style)) && AsciiLower(Name(style)) == Name(style)
    ensures '>' !in Name(style) && '>' !in ['/'] + Name(style)
  {
  }

  lemma StyleMarks(out: string, style: Style, closing: bool)
    ensures PushTag(out, Name(style), closing) == out + Mark(style)
  {
  }

  lemma StyleTags(out: string, style: Style)
    ensures PushHtmlTag(out, Name(style)) == out + Mark(style) && PushHtmlTag(out, ['/'] + Name(style)) == out + Mark(style)
  {
    StyleNames(style);
    TagIsKnownByName(out, Name(style), []);
    assert Name(style) + [] == Name(style);
    StyleMarks(out, style, false);
    StyleMarks(out, style, true);
  }

  // `tag` appends a style's mark for its tags, opening or closing.
  ghost predicate MarksStyles(tag: (string, string) -> string)
  {
    forall out, style :: tag(out, Name(style)) == out + Mark(style) && tag(out, ['/'] + Name(style)) == out + Mark(style)
  }

  lemma TagsMarkStyles()
    ensures MarksStyles(PushHtmlTag)
  {
    forall out, style ensures PushHtmlTag(out, Name(style)) == out + Mark(style) && PushHtmlTag(out, ['/'] + Name(style)) == out + Mark(style) {
      StyleTags(out, style);
    }
  }

  // Running text renders to its Markdown, behind whatever is there already and
  // before whatever follows.
  lemma {:induction false} InlineRenders(out: string, d: Inline, tail: string, tag: (string, string) -> string)
    requires MarksStyles(tag)
    ensures RenderTags(out, Html(d) + tail, tag) == RenderTags(out + Markdown(d), tail, tag)
    decreases d
  {
    match d
    case End =>
      assert [] + tail == tail && out + [] == out;
    case Plain(text, rest) =>
      Associative(FlatMap(text, EscapeChar), Html(rest), tail);
      TextRenders(out, text, Html(rest) + tail, tag);
      InlineRenders(out + text, rest, tail, tag);
      Associative(out, text, Markdown(rest));
    case Styled(style, inner, rest) =>
      var inside := out + Mark(style) + Markdown(inner);
      StyleOpens(out, style, Html(inner), Html(rest), tail, tag);
      InlineRenders(out + Mark(style), inner, Bracketed(['/'] + Name(style)) + (Html(rest) + tail), tag);
      StyleCloses(inside, style, Html(rest) + tail, tag);
      InlineRenders(inside + Mark(style), rest, tail, tag);
      Regrouped4(out, Mark(style), Markdown(inner), Mark(style), Markdown(rest));
  }

  lemma StyleOpens(out: string, style: Style, inner: string, rest: string, tail: string, tag: (string, string) -> string)
    requires MarksStyles(tag)
    ensures
      var close := Bracketed(['/'] + Name(style));
      RenderTags(out, (Bracketed(Name(style)) + (inner + (close + rest))) + tail, tag)
      == RenderTags(out + Mark(style), inner + (close + (rest + tail)), tag)
  {
    var close := Bracketed(['/'] + Name(style));
    StyleNames(style);
    Regrouped(Bracketed(Name(style)), inner, close, rest, tail);
    TagRenders(out, Name(style), inner + (close + (rest + tail)), tag);
  }

  lemma StyleCloses(out: string, style: Style, tail: string, tag: (string, string) -> string)
    requires MarksStyles(tag)
    ensures RenderTags(out, Bracketed(['/'] + Name(style)) + tail, tag) == RenderTags(out + Mark(style), tail, tag)
  {
    StyleNames(style);
    TagRenders(out, ['/'] + Name(style), tail, tag);
  }

  lemma Regrouped(a: string, b: string, c: string, d: string, e: string)
    ensures (a + (b + (c + d))) + e == a + (b + (c + (d + e)))
  {
  }

  lemma Regrouped4(a: string, b: string, c: string, d: string, e: string)
    ensures a + (b + (c + (d + e))) == a + b + c + d + e
  {
  }

  // ---- paragraphs and lists ----

  datatype Block = Paragraph(text: Inline) | List(items: seq<Inline>)

  // Something is shown, and nothing at its end that block tags would cut off.
  predicate Solid(d: Inline)
  {
    var m := Markdown(d);
    m != [] && m[|m| - 1] != ' ' && m[|m| - 1] != '\n'
  }

  predicate SolidBlock(b: Block)
  {
    match b
    case Paragraph(text) => Solid(text)
    case List(items) => items != [] && forall d <- items :: Solid(d)
  }

  function Tagged(tag: string, inner: string): string
  {
    Bracketed(tag) + (inner + Bracketed(['/'] + tag))
  }

  function ItemsHtml(items: seq<Inline>): string
  {
    if items == [] then [] else Tagged("li", Html(items[0])) + ItemsHtml(items[1..])
  }

  function BlockHtml(b: Block): string
  {
    match b
    case Paragraph(text) => Tagged("p", Html(text))
    case List(items) => Tagged("ul", ItemsHtml(items))
  }

  function BlocksHtml(blocks: seq<Block>): string
  {
    if blocks == [] then [] else BlockHtml(blocks[0]) + BlocksHtml(blocks[1..])
  }

  function ItemsMarkdown(items: seq<Inline>): string
  {
    if items == [] then [] else ("- " + Markdown(items[0]) + "\n") + ItemsMarkdown(items[1..])
  }

  function BlockMarkdown(b: Block): string
  {
    match b
    case Paragraph(text) => Markdown(text) + "\n\n"
    case List(items) => ItemsMarkdown(items) + "\n"
  }

  function BlocksMarkdown(blocks: seq<Block>): string
  {
    if blocks == [] then [] else BlockMarkdown(blocks[0]) + BlocksMarkdown(blocks[1..])
  }

  // What is there ends with a blank line.
  predicate BlankBefore(out: string)
  {
    |out| >= 2 && out[|out| - 1] == '\n' && out[|out| - 2] == '\n'
  }

  // Nothing yet, or a blank line at the end.
  predicate AtBlockStart(out: string)
  {
    out == [] || BlankBefore(out)
  }

  lemma BlankLineStays(out: string)
    requires AtBlockStart(out)
    ensures PushBlankLine(out) == out
  {
  }

  // Spaces at the end are dropped before a blank line.
  lemma BlankLineDropsSpaces(out: string)
    ensures PushBlankLine(out + [' ']) == PushBlankLine(out)
  {
    SpaceIsDropped(out);
  }

  lemma SpaceIsDropped(out: string)
    ensures TrimSpaces(out + [' ']) == TrimSpaces(out)
  {
    var s := out + [' '];
    assert s[|s| - 1] == ' ' && s[..|s| - 1] == out;
  }

  lemma BlankLineAfter(out: string, m: string)
    requires m != [] && m[|m| - 1] != ' ' && m[|m| - 1] != '\n'
    ensures PushBlankLine(out + m) == out + m + "\n\n"
  {
    var s := out + m;
    assert s[|s| - 1] == m[|m| - 1];
    assert TrimSpaces(s) == s;
  }

  lemma BlankLineAfterLine(out: string)
    requires |out| >= 2 && out[|out| - 1] == '\n' && out[|out| - 2] != '\n'
    ensures PushBlankLine(out) == out + "\n" && BlankBefore(out + "\n")
  {
    assert TrimSpaces(out) == out;
    assert out[|out| - 2..][0] == out[|out| - 2];
  }

  lemma NewlineAfter(out: string, m: string)
    requires m != [] && m[|m| - 1] != '\n'
    ensures PushNewline(out + m) == out + m + "\n"
  {
    var s := out + m;
    assert s[|s| - 1] == m[|m| - 1];
  }

  // A name in the form the tags below have it.
  lemma BlockTag(out: string, name: string)
    requires name in {"p", "ul", "li"}
    ensures PushHtmlTag(out, name) == PushTag(out, name, false) && PushHtmlTag(out, ['/'] + name) == PushTag(out, name, true)
    ensures '>' !in name && '>' !in ['/'] + name
  {
    assert name + [] == name;
    assert AsciiLower(name) == name;
    TagIsKnownByName(out, name, []);
  }

  // `tag` does for these three what their meaning in a text asks for.
  ghost predicate MarksBlocks(tag: (string, string) -> string)
  {
    && (forall out :: tag(out, "p") == PushBlankLine(out) && tag(out, ['/'] + "p") == PushBlankLine(out))
    && (forall out :: tag(out, "ul") == PushBlankLine(out) && tag(out, ['/'] + "ul") == PushBlankLine(out))
    && (forall out :: tag(out, "li") == PushNewline(out) + "- " && tag(out, ['/'] + "li") == PushNewline(out))
  }

  lemma TagsMarkBlocks()
    ensures MarksBlocks(PushHtmlTag)
  {
    forall out ensures PushHtmlTag(out, "p") == PushBlankLine(out) && PushHtmlTag(out, ['/'] + "p") == PushBlankLine(out) {
      BlockTag(out, "p");
    }
    forall out ensures PushHtmlTag(out, "ul") == PushBlankLine(out) && PushHtmlTag(out, ['/'] + "ul") == PushBlankLine(out) {
      BlockTag(out, "ul");
    }
    forall out ensures PushHtmlTag(out, "li") == PushNewline(out) + "- " && PushHtmlTag(out, ['/'] + "li") == PushNewline(out) {
      BlockTag(out, "li");
    }
  }

  lemma TaggedOpens(out: string, name: string, inner: string, tail: string, tag: (string, string) -> string)
    requires '>' !in name
    ensures RenderTags(out, Tagged(name, inner) + tail, tag)
         == RenderTags(tag(out, name), inner + (Bracketed(['/'] + name) + tail), tag)
  {
    var close := Bracketed(['/'] + name);
    Associative(Bracketed(name), inner + close, tail);
    Associative(inner, close, tail);
    TagRenders(out, name, inner + (close + tail), tag);
  }

  // A tag around running text: what opening and closing it come to.
  lemma TaggedRenders(out: string, name: string, d: Inline, tail: string, tag: (string, string) -> string)
    requires MarksStyles(tag) && '>' !in name && '>' !in ['/'] + name
    ensures RenderTags(out, Tagged(name, Html(d)) + tail, tag)
         == RenderTags(tag(tag(out, name) + Markdown(d), ['/'] + name), tail, tag)
  {
    TaggedOpens(out, name, Html(d), tail, tag);
    InlineRenders(tag(out, name), d, Bracketed(['/'] + name) + tail, tag);
    TagRenders(tag(out, name) + Markdown(d), ['/'] + name, tail, tag);
  }

  lemma ParagraphTags(out: string, d: Inline, tag: (string, string) -> string)
    requires MarksBlocks(tag) && AtBlockStart(out) && Solid(d)
    ensures tag(tag(out, "p") + Markdown(d), ['/'] + "p") == out + Markdown(d) + "\n\n"
  {
    BlankLineStays(out);
    BlankLineAfter(out, Markdown(d));
  }

  lemma ParagraphRenders(out: string, d: Inline, tail: string, tag: (string, string) -> string)
    requires MarksStyles(tag) && MarksBlocks(tag) && AtBlockStart(out) && Solid(d)
    ensures RenderTags(out, BlockHtml(Paragraph(d)) + tail, tag) == RenderTags(out + Markdown(d) + "\n\n", tail, tag)
  {
    TaggedRenders(out, "p", d, tail, tag);
    ParagraphTags(out, d, tag);
  }

  // A line has just ended.
  predicate AtLineStart(out: string)
  {
    out != [] && out[|out| - 1] == '\n'
  }

  lemma LineStays(out: string)
    requires AtLineStart(out)
    ensures PushNewline(out) == out
  {
  }

  lemma ItemLine(out: string, m: string)
    requires m != [] && m[|m| - 1] != '\n'
    ensures PushNewline(out + "- " + m) == out + ("- " + m + "\n")
  {
    NewlineAfter(out + "- ", m);
    Regrouped3(out, "- ", m, "\n");
  }

  lemma ItemTags(out: string, d: Inline, tag: (string, string) -> string)
    requires MarksBlocks(tag) && AtLineStart(out) && Solid(d)
    ensures tag(tag(out, "li") + Markdown(d), ['/'] + "li") == out + ("- " + Markdown(d) + "\n")
  {
    LineStays(out);
    ItemLine(out, Markdown(d));
  }

  lemma ItemRenders(out: string, d: Inline, tail: string, tag: (string, string) -> string)
    requires MarksStyles(tag) && MarksBlocks(tag) && AtLineStart(out) && Solid(d)
    ensures RenderTags(out, Tagged("li", Html(d)) + tail, tag) == RenderTags(out + ("- " + Markdown(d) + "\n"), tail, tag)
  {
    TaggedRenders(out, "li", d, tail, tag);
    ItemTags(out, d, tag);
  }

  lemma {:induction false} ItemsRender(out: string, items: seq<Inline>, tail: string, tag: (string, string) -> string)
    requires MarksStyles(tag) && MarksBlocks(tag) && AtLineStart(out) && forall d <- items :: Solid(d)
    ensures RenderTags(out, ItemsHtml(items) + tail, tag) == RenderTags(out + ItemsMarkdown(items), tail, tag)
    decreases |items|
  {
    if items == [] {
      assert [] + tail == tail && out + [] == out;
    } else {
      var item := "- " + Markdown(items[0]) + "\n";
      Associative(Tagged("li", Html(items[0])), ItemsHtml(items[1..]), tail);
      ItemRenders(out, items[0], ItemsHtml(items[1..]) + tail, tag);
      ItemsRender(out + item, items[1..], tail, tag);
      Associative(out, item, ItemsMarkdown(items[1..]));
    }
  }

  lemma {:induction false} ItemsEndALine(items: seq<Inline>)
    requires items != [] && forall d <- items :: Solid(d)
    ensures
      var m := ItemsMarkdown(items);
      |m| >= 2 && m[|m| - 1] == '\n' && m[|m| - 2] != '\n'
    decreases |items|
  {
    var first, m := "- " + Markdown(items[0]) + "\n", Markdown(items[0]);
    assert Solid(items[0]) && first[|first| - 2] == m[|m| - 1];
    if |items| > 1 {
      ItemsEndALine(items[1..]);
    } else {
      assert ItemsMarkdown(items) == first + [] == first;
    }
  }

  lemma TaggedList(out: string, items: seq<Inline>, tail: string, tag: (string, string) -> string)
    requires MarksStyles(tag) && MarksBlocks(tag) && AtLineStart(tag(out, "ul")) && forall d <- items :: Solid(d)
    ensures RenderTags(out, Tagged("ul", ItemsHtml(items)) + tail, tag)
         == RenderTags(tag(tag(out, "ul") + ItemsMarkdown(items), ['/'] + "ul"), tail, tag)
  {
    TaggedOpens(out, "ul", ItemsHtml(items), tail, tag);
    ItemsRender(tag(out, "ul"), items, Bracketed(['/'] + "ul") + tail, tag);
    TagRenders(tag(out, "ul") + ItemsMarkdown(items), ['/'] + "ul", tail, tag);
  }

  lemma ListTags(out: string, items: seq<Inline>, tag: (string, string) -> string)
    requires MarksBlocks(tag) && BlankBefore(out) && SolidBlock(List(items))
    ensures tag(out, "ul") == out
    ensures tag(out + ItemsMarkdown(items), ['/'] + "ul") == out + (ItemsMarkdown(items) + "\n")
    ensures BlankBefore(out + (ItemsMarkdown(items) + "\n"))
  {
    var m := ItemsMarkdown(items);
    BlankLineStays(out);
    ItemsEndALine(items);
    assert (out + m)[|out + m| - 1] == m[|m| - 1] && (out + m)[|out + m| - 2] == m[|m| - 2];
    BlankLineAfterLine(out + m);
    Associative(out, m, "\n");
  }

  lemma ListRenders(out: string, items: seq<Inline>, tail: string, tag: (string, string) -> string)
    requires MarksStyles(tag) && MarksBlocks(tag) && BlankBefore(out) && SolidBlock(List(items))
    ensures RenderTags(out, BlockHtml(List(items)) + tail, tag) == RenderTags(out + (ItemsMarkdown(items) + "\n"), tail, tag)
    ensures BlankBefore(out + (ItemsMarkdown(items) + "\n"))
  {
    ListTags(out, items, tag);
    TaggedList(out, items, tail, tag);
  }

  lemma ParagraphEnds(out: string, d: Inline)
    ensures BlankBefore(out + (Markdown(d) + "\n\n")) && out + Markdown(d) + "\n\n" == out + (Markdown(d) + "\n\n")
  {
  }

  // Paragraphs and lists render to their Markdown, one blank line after each, behind
  // whatever was rendered before them.
  lemma {:induction false} BlocksRender(out: string, blocks: seq<Block>, tail: string, tag: (string, string) -> string)
    requires MarksStyles(tag) && MarksBlocks(tag) && AtBlockStart(out) && forall b <- blocks :: SolidBlock(b)
    requires out == [] && blocks != [] ==> blocks[0].Paragraph?
    ensures RenderTags(out, BlocksHtml(blocks) + tail, tag) == RenderTags(out + BlocksMarkdown(blocks), tail, tag)
    decreases |blocks|
  {
    if blocks == [] {
      assert [] + tail == tail && out + [] == out;
    } else {
      var rest, first := BlocksHtml(blocks[1..]), BlockMarkdown(blocks[0]);
      assert SolidBlock(blocks[0]);
      Associative(BlockHtml(blocks[0]), rest, tail);
      match blocks[0] {
        case Paragraph(d) =>
          ParagraphRenders(out, d, rest + tail, tag);
          ParagraphEnds(out, d);
        case List(items) =>
          ListRenders(out, items, rest + tail, tag);
      }
      BlocksRender(out + first, blocks[1..], tail, tag);
      Associative(out, first, BlocksMarkdown(blocks[1..]));
    }
  }

  // Nothing there or one line ended: a list item begins alike.
  lemma FirstItems(items: seq<Inline>, tail: string, tag: (string, string) -> string)
    requires MarksStyles(tag) && MarksBlocks(tag) && items != [] && forall d <- items :: Solid(d)
    ensures RenderTags([], ItemsHtml(items) + tail, tag) == RenderTags("\n" + ItemsMarkdown(items), tail, tag)
  {
    var rest := ItemsHtml(items[1..]) + tail;
    Associative(Tagged("li", Html(items[0])), ItemsHtml(items[1..]), tail);
    assert tag([], "li") == tag("\n", "li");
    TaggedRenders([], "li", items[0], rest, tag);
    TaggedRenders("\n", "li", items[0], rest, tag);
    ItemsRender("\n", items, tail, tag);
  }

  // A list at the very start comes after an empty line.
  lemma FirstListTags(items: seq<Inline>, tag: (string, string) -> string)
    requires MarksBlocks(tag) && SolidBlock(List(items))
    ensures tag([], "ul") == []
    ensures tag("\n" + ItemsMarkdown(items), ['/'] + "ul") == "\n" + (ItemsMarkdown(items) + "\n")
    ensures BlankBefore("\n" + (ItemsMarkdown(items) + "\n"))
  {
    var m := ItemsMarkdown(items);
    ItemsEndALine(items);
    assert ("\n" + m)[|"\n" + m| - 1] == m[|m| - 1] && ("\n" + m)[|"\n" + m| - 2] == m[|m| - 2];
    BlankLineAfterLine("\n" + m);
    Associative("\n", m, "\n");
  }

  lemma FirstListRenders(items: seq<Inline>, tail: string, tag: (string, string) -> string)
    requires MarksStyles(tag) && MarksBlocks(tag) && SolidBlock(List(items))
    ensures RenderTags([], BlockHtml(List(items)) + tail, tag) == RenderTags("\n" + (ItemsMarkdown(items) + "\n"), tail, tag)
    ensures BlankBefore("\n" + (ItemsMarkdown(items) + "\n"))
  {
    FirstListTags(items, tag);
    TaggedOpens([], "ul", ItemsHtml(items), tail, tag);
    FirstItems(items, Bracketed(['/'] + "ul") + tail, tag);
    TagRenders("\n" + ItemsMarkdown(items), ['/'] + "ul", tail, tag);
  }

  // A document of paragraphs and lists renders to their Markdown, one blank line
  // after each; if it begins with a list, an empty line comes first.
  lemma DocumentRenders(blocks: seq<Block>)
    requires forall b <- blocks :: SolidBlock(b)
    ensures Render(BlocksHtml(blocks)) == (if blocks != [] && blocks[0].List? then "\n" else "") + BlocksMarkdown(blocks)
  {
    TagsMarkStyles();
    TagsMarkBlocks();
    DocumentRendersBy(blocks, PushHtmlTag);
  }

  lemma DocumentRendersBy(blocks: seq<Block>, tag: (string, string) -> string)
    requires MarksStyles(tag) && MarksBlocks(tag) && forall b <- blocks :: SolidBlock(b)
    ensures RenderTags([], BlocksHtml(blocks), tag) == (if blocks != [] && blocks[0].List? then "\n" else "") + BlocksMarkdown(blocks)
  {
    if blocks != [] && blocks[0].List? {
      ListFirst(blocks, tag);
    } else {
      ParagraphFirst(blocks, tag);
      assert "" + BlocksMarkdown(blocks) == BlocksMarkdown(blocks);
    }
  }

  lemma ParagraphFirst(blocks: seq<Block>, tag: (string, string) -> string)
    requires MarksStyles(tag) && MarksBlocks(tag) && (blocks != [] ==> blocks[0].Paragraph?) && forall b <- blocks :: SolidBlock(b)
    ensures RenderTags([], BlocksHtml(blocks), tag) == BlocksMarkdown(blocks)
  {
    BlocksRender([], blocks, [], tag);
    NothingLeft(BlocksHtml(blocks), BlocksMarkdown(blocks), tag);
  }

  lemma ListFirst(blocks: seq<Block>, tag: (string, string) -> string)
    requires MarksStyles(tag) && MarksBlocks(tag) && blocks != [] && blocks[0].List? && forall b <- blocks :: SolidBlock(b)
    ensures RenderTags([], BlocksHtml(blocks), tag) == "\n" + BlocksMarkdown(blocks)
  {
    var rest, first := BlocksHtml(blocks[1..]), BlockMarkdown(blocks[0]);
    assert SolidBlock(blocks[0]) && rest + [] == rest;
    FirstListRenders(blocks[0].items, rest, tag);
    BlocksRender("\n" + first, blocks[1..], [], tag);
    Associative("\n", first, BlocksMarkdown(blocks[1..]));
    NoTagLeft("\n" + BlocksMarkdown(blocks), [], tag);
    NothingDecodes("\n" + BlocksMarkdown(blocks));
  }

  lemma NothingLeft(html: string, out: string, tag: (string, string) -> string)
    requires RenderTags([], html + [], tag) == RenderTags([] + out, [], tag)
    ensures RenderTags([], html, tag) == out
  {
    assert html + [] == html && [] + out == out;
    NoTagLeft(out, [], tag);
    assert DecodeEntities([]) == [] && out + [] == out;
  }

  // ---- the remaining tags ----

  // A comment shows nothing, and neither does a tag nobody knows.
  lemma CommentShowsNothing(out: string, raw: string)
    requires Trim(raw) == [] || Trim(raw)[0] == '!'
    ensures PushHtmlTag(out, raw) == out
  {
  }

  lemma UnknownTagShowsNothing(out: string, name: string, closing: bool)
    requires name !in {"p", "ul", "ol", "li", "br", "code", "pre", "b", "strong", "i", "em"}
    ensures PushTag(out, name, closing) == out
  {
  }

  // A break ends the line, once; a preformatted block stands between fences of its
  // own lines; an ordered list is spaced like any other.
  lemma BreaksAndFences(out: string, t: string)
    requires AtBlockStart(out)
    ensures AtLineStart(PushTag(t, "br", false)) && t <= PushTag(t, "br", false) && |PushTag(t, "br", false)| <= |t| + 1
    ensures PushTag(t, "br", true) == t
    ensures PushTag(out, "pre", false) == out + "```text\n"
    ensures t != [] && t[|t| - 1] != '\n' ==> PushTag(out + "```text\n" + t, "pre", true) == out + "```text\n" + t + "\n```\n"
    ensures PushTag(out, "ol", false) == PushTag(out, "ul", false) && PushTag(t, "ol", true) == PushTag(t, "ul", true)
  {
    BlankLineStays(out);
    if t != [] && t[|t| - 1] != '\n' {
      NewlineAfter(out + "```text\n", t);
      assert out + "```text\n" + t + "\n" + "```\n" == out + "```text\n" + t + "\n```\n";
    }
  }

  // A tag that closes itself is the tag opened.
  lemma SelfClosingTag(out: string, name: string)
    requires IsName(name)
    ensures PushHtmlTag(out, name + ['/']) == PushHtmlTag(out, name)
  {
    NamedTag(out, name, []);
    assert name + [] == name && name[0] in name && (name + ['/'])[0] == name[0];
    assert (name + ['/'])[..|name|] == name;
    WordIsName(name, []);
    SlashEndOff(name);
    assert TrimStart(name) == name;
    TrimIs(name + ['/'], name + ['/']);
    OpenTag(out, name + ['/'], name + ['/'], name);
  }

  lemma SlashEndOff(name: string)
    requires IsName(name)
    ensures TrimSlashEnd(name + ['/']) == name && TrimEnd(name + ['/']) == name + ['/']
  {
    var s := name + ['/'];
    assert s[..|s| - 1] == name && name[|name| - 1] in name;
  }
}
