// What becomes of a message body on its way to the terminal, and the one-line
// form an error takes in the audit log.
module MessageBody {
  import opened Prelude
  import opened Utf8
  import opened TextLines
  import opened HtmlText
  import opened Compaction

  const TAGS: seq<string> := [
    "<p", "</p", "<ul", "</ul", "<ol", "</ol", "<li", "</li", "<br", "<code", "</code", "<pre",
    "</pre", "<b", "</b", "<strong", "</strong", "<i", "</i", "<em", "</em"
  ]

  predicate ContainsAt(s: string, part: string, i: nat)
  {
    i + |part| <= |s| && s[i..i + |part|] == part
  }

  predicate Contains(s: string, part: string)
  {
    exists i: nat | i <= |s| :: ContainsAt(s, part, i)
  }

  predicate LooksLikeHtml(body: string)
  {
    exists tag <- TAGS :: Contains(AsciiLower(body), tag)
  }

  function NormalizeBy(body: string, render: string -> string): string
  {
    if LooksLikeHtml(body) then render(body) else body
  }

  function RenderCompactly(body: string): string
  {
    Compact(Render(body))
  }

  function Normalize(body: string): string
  {
    NormalizeBy(body, RenderCompactly)
  }

  method NormalizeTuiBody(body: string) returns (r: string)
    ensures r == Normalize(body)
  {
    if !LooksLikeHtml(body) {
      return body;
    }
    var rendered := RenderHtmlishBody(body);
    r := CompactRenderedHtml(rendered);
  }

  const NAMES: seq<string> := ["p", "ul", "ol", "li", "code", "pre", "b", "strong", "i", "em"]

  lemma TagsAreNames()
    ensures |NAMES| == 10 && |TAGS| == 21
    ensures forall k | 0 <= k < 4 :: TAGS[2 * k] == "<" + NAMES[k] && TAGS[2 * k + 1] == "</" + NAMES[k]
    ensures TAGS[8] == "<br"
    ensures forall k | 4 <= k < 10 :: TAGS[2 * k + 1] == "<" + NAMES[k] && TAGS[2 * k + 2] == "</" + NAMES[k]
  {
  }

  // An opening or a closing tag whose name starts with `name`.
  predicate TagAt(s: string, i: nat, name: string)
  {
    ContainsAt(s, "<" + name, i) || ContainsAt(s, "</" + name, i)
  }

  predicate HasTag(s: string, name: string)
  {
    exists i: nat | i <= |s| :: TagAt(s, i, name)
  }

  lemma HasTagContains(s: string, name: string)
    ensures HasTag(s, name) <==> Contains(s, "<" + name) || Contains(s, "</" + name)
  {
    forall i: nat | i <= |s| ensures TagAt(s, i, name) <==> ContainsAt(s, "<" + name, i) || ContainsAt(s, "</" + name, i) {
    }
    if Contains(s, "<" + name) {
      var i: nat :| i <= |s| && ContainsAt(s, "<" + name, i);
      assert TagAt(s, i, name);
    }
    if Contains(s, "</" + name) {
      var i: nat :| i <= |s| && ContainsAt(s, "</" + name, i);
      assert TagAt(s, i, name);
    }
  }

  lemma BreakIsBold(s: string)
    ensures Contains(s, "<br") ==> Contains(s, "<" + "b")
  {
    if Contains(s, "<br") {
      var i: nat :| i <= |s| && ContainsAt(s, "<br", i);
      assert s[i..i + 2] == s[i..i + 3][..2] == "<" + "b";
      assert ContainsAt(s, "<" + "b", i);
    }
  }

  // A body looks like HTML exactly when, letters taken in either case, it holds a
  // tag whose name starts like one of those that are rendered.
  lemma LooksLikeHtmlExactlyWhen(body: string)
    ensures LooksLikeHtml(body) <==> exists name <- NAMES :: HasTag(AsciiLower(body), name)
  {
    var s := AsciiLower(body);
    TagsAreNames();
    if LooksLikeHtml(body) {
      var tag :| tag in TAGS && Contains(s, tag);
      var name := NameOf(s, tag);
    }
    forall name <- NAMES | HasTag(s, name) ensures LooksLikeHtml(body) {
      HasTagContains(s, name);
      var k :| 0 <= k < |NAMES| && NAMES[k] == name;
      var j := if k < 4 then 2 * k else 2 * k + 1;
      assert TAGS[j] in TAGS && TAGS[j + 1] in TAGS;
    }
  }

  lemma NameAt(j: nat) returns (name: string)
    requires j < |TAGS| && j != 8
    ensures name in NAMES && (TAGS[j] == "<" + name || TAGS[j] == "</" + name)
  {
    TagsAreNames();
    var k := if j < 8 then j / 2 else (j - 1) / 2;
    assert j < 8 ==> j == 2 * k || j == 2 * k + 1;
    assert j > 8 ==> j == 2 * k + 1 || j == 2 * k + 2;
    name := NAMES[k];
  }

  lemma NameOf(s: string, tag: string) returns (name: string)
    requires tag in TAGS && Contains(s, tag)
    ensures name in NAMES && HasTag(s, name)
  {
    var j :| 0 <= j < |TAGS| && TAGS[j] == tag;
    if j == 8 {
      BreakIsBold(s);
      TagsAreNames();
      name := NAMES[6];
    } else {
      name := NameAt(j);
    }
    HasTagContains(s, name);
  }

  lemma TagsOpen()
    ensures forall tag <- TAGS :: tag != [] && tag[0] == '<'
  {
  }

  lemma PartIsInside(s: string, part: string)
    requires part != [] && Contains(s, part)
    ensures part[0] in s
  {
    var i: nat :| i <= |s| && ContainsAt(s, part, i);
    assert s[i..i + |part|][0] == s[i];
  }

  lemma LowerKeepsOut(s: string)
    requires '<' !in s
    ensures '<' !in AsciiLower(s)
  {
    var t := AsciiLower(s);
    forall i | 0 <= i < |t| ensures t[i] != '<' {
      assert s[i] in s;
    }
  }

  // Whatever rendering does, a body without a tag is left exactly as it is,
  // entities and blank lines included.
  lemma PlainIsUnchanged(body: string, render: string -> string)
    requires '<' !in body
    ensures NormalizeBy(body, render) == body
  {
    TagsOpen();
    LowerKeepsOut(body);
    forall tag <- TAGS ensures Contains(AsciiLower(body), tag) ==> '<' in AsciiLower(body) {
      if Contains(AsciiLower(body), tag) {
        PartIsInside(AsciiLower(body), tag);
      }
    }
  }

  // A body that looks like HTML comes out compacted, whatever its tags left behind.
  lemma RenderedIsCompact(body: string)
    requires LooksLikeHtml(body)
    ensures Normalize(body) == Compact(Render(body)) && Compact(Normalize(body)) == Normalize(body)
  {
    CompactIsIdempotent(Render(body));
  }

  // In particular escaped text stays escaped: it is only unescaped beside a tag.
  lemma EscapedIsUnchanged(t: string, render: string -> string)
    ensures NormalizeBy(FlatMap(t, EscapeChar), render) == FlatMap(t, EscapeChar)
  {
    RenderInvertsEscape(t);
    PlainIsUnchanged(FlatMap(t, EscapeChar), render);
  }

  // ---- one line for the audit log ----

  // The first line that is not blank, trimmed.
  function FirstLine(lines: seq<string>): (head: string)
    ensures Trimmed(head)
    ensures head == [] <==> forall line <- lines :: Blank(line)
  {
    if lines == [] then []
    else
      TrimIsTrimmed(lines[0]);
      TrimBlank(lines[0]);
      if Trim(lines[0]) != [] then Trim(lines[0]) else FirstLine(lines[1..])
  }

  method FindFirstLine(lines: seq<string>) returns (head: string)
    ensures head == FirstLine(lines)
  {
    var i := 0;
    assert lines[0..] == lines;
    while i < |lines| && Trim(lines[i]) == []
      invariant i <= |lines| && FirstLine(lines[i..]) == FirstLine(lines)
    {
      assert lines[i..][1..] == lines[i + 1..];
      i := i + 1;
    }
    head := if i < |lines| then Trim(lines[i]) else [];
  }

  method FirstLineCapped(s: string, max: nat) returns (out: seq<Byte>)
    ensures
      var head := Encode(FirstLine(Lines(s)));
      && Valid(out)
      && (|head| <= max ==> out == head)
      && (|head| > max ==> out == head[..LastBoundary(head, max)] && max <= |out| + 3)
  {
    var line := FindFirstLine(Lines(s));
    FromUtf8Inverts(line);
    out := Capped(Encode(line), max);
  }

  lemma FirstLineIs(lines: seq<string>, i: nat)
    requires i < |lines| && !Blank(lines[i]) && forall j | 0 <= j < i :: Blank(lines[j])
    ensures FirstLine(lines) == Trim(lines[i])
    decreases i
  {
    TrimBlank(lines[0]);
    if i > 0 {
      FirstLineIs(lines[1..], i - 1);
    }
  }
}
