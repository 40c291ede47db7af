// The request a recall works on: the text of the trailing user message, and the
// hint put in front of it.
module RecallMessages {
  import opened Prelude
  import opened TextLines
  import opened ArgumentRewrite

  // `Value::get` with a key.
  function Member(v: Json, key: string): Option<Json>
  {
    if v.Object? then Lookup(v.fields, key) else None
  }

  // The text of a text block.
  function BlockText(block: Json): Option<string>
  {
    if AsText(Member(block, "type")) == Some("text") then AsText(Member(block, "text")) else None
  }

  function TextBlock(text: string): Json
  {
    Object(map["type" := String("text"), "text" := String(text)])
  }

  function PushText(buf: string, block: Json): string
  {
    match BlockText(block)
    case None => buf
    case Some(text) => if buf == [] then text else buf + (['\n'] + text)
  }

  // `buf` with the texts of the blocks, a newline before each unless nothing came before it.
  function Gathered(buf: string, blocks: seq<Json>): string
    decreases |blocks|
  {
    if blocks == [] then buf else Gathered(PushText(buf, blocks[0]), blocks[1..])
  }

  predicate FromUser(message: Json)
  {
    AsText(Member(message, "role")) == Some("user")
  }

  // The text of the last message, if a user wrote it.
  function LastUserText(messages: seq<Json>): Option<string>
  {
    if messages == [] || !FromUser(messages[|messages| - 1]) then None
    else
      match Member(messages[|messages| - 1], "content")
      case Some(String(text)) => Some(text)
      case Some(Array(blocks)) => if Gathered([], blocks) == [] then None else Some(Gathered([], blocks))
      case _ => None
  }

  method ExtractLastUserText(messages: seq<Json>) returns (text: Option<string>)
    ensures text == LastUserText(messages)
  {
    if messages == [] || !FromUser(messages[|messages| - 1]) {
      return None;
    }
    match Member(messages[|messages| - 1], "content") {
      case Some(String(s)) => text := Some(s);
      case Some(Array(blocks)) =>
        var buf := [];
        assert blocks[0..] == blocks;
        for i := 0 to |blocks|
          invariant Gathered(buf, blocks[i..]) == Gathered([], blocks)
        {
          assert blocks[i..][1..] == blocks[i + 1..];
          buf := PushText(buf, blocks[i]);
        }
        text := if buf == [] then None else Some(buf);
      case _ => text := None;
    }
  }

  // ---- prepending ----

  function WithContent(message: Json, content: Json): Json
    requires message.Object?
  {
    Object(message.fields["content" := content])
  }

  // The hint goes before a text content, or in a block of its own before the others.
  function Hinted(content: Json, hint: string): Option<Json>
  {
    match content
    case String(text) => Some(String(hint + ("\n\n" + text)))
    case Array(blocks) => Some(Array([TextBlock(hint)] + blocks))
    case _ => None
  }

  function Prepend(messages: seq<Json>, hint: string): Option<seq<Json>>
  {
    if messages == [] || !FromUser(messages[|messages| - 1]) then None
    else
      var last := messages[|messages| - 1];
      match Member(last, "content")
      case None => None
      case Some(content) =>
        match Hinted(content, hint)
        case None => None
        case Some(hinted) => Some(messages[..|messages| - 1] + [WithContent(last, hinted)])
  }

  // Wherever there is a text to recall for, the hint can be put in front of it,
  // and nothing but the content of the last message changes.
  lemma PrependKeepsTheRest(messages: seq<Json>, hint: string)
    requires LastUserText(messages).Some?
    ensures Prepend(messages, hint).Some?
    ensures
      var after, n := Prepend(messages, hint).value, |messages| - 1;
      && |after| == n + 1 && after[..n] == messages[..n] && messages[n].Object? && after[n].Object?
      && messages[n].fields - {"content"} == after[n].fields - {"content"}
  {
  }

  predicate Newlines(s: string)
  {
    forall c <- s :: c == '\n'
  }

  lemma {:induction false} GatheredOn(a: string, b: string, blocks: seq<Json>)
    requires b != []
    ensures Gathered(a + b, blocks) == a + Gathered(b, blocks)
    decreases |blocks|
  {
    if blocks != [] {
      GatheredOn(a, PushText(b, blocks[0]), blocks[1..]);
      if BlockText(blocks[0]).Some? {
        Associative(a, b, ['\n'] + BlockText(blocks[0]).value);
      }
    }
  }

  // Text gathered after something comes after a run of newlines.
  lemma {:induction false} GatheredAfter(buf: string, blocks: seq<Json>) returns (gap: string)
    requires buf != []
    ensures Newlines(gap) && Gathered(buf, blocks) == buf + gap + Gathered([], blocks)
    ensures Gathered([], blocks) != [] ==> gap != []
    decreases |blocks|
  {
    gap := [];
    if blocks != [] {
      match BlockText(blocks[0])
      case None => gap := GatheredAfter(buf, blocks[1..]);
      case Some(text) =>
        if text == [] {
          assert ['\n'] + text == ['\n'];
          var more := GatheredAfter(buf + ['\n'], blocks[1..]);
          gap := ['\n'] + more;
          assert buf + ['\n'] + more == buf + gap;
        } else {
          gap := ['\n'];
          GatheredOn(buf + ['\n'], text, blocks[1..]);
          Associative(buf, ['\n'], text);
        }
    }
  }

  lemma LastOfPrepended(messages: seq<Json>, hint: string)
    requires LastUserText(messages).Some?
    ensures
      var after, last := Prepend(messages, hint).value, messages[|messages| - 1];
      && Prepend(messages, hint).Some? && last.Object? && Member(last, "content").Some?
      && Hinted(Member(last, "content").value, hint).Some?
      && after != [] && FromUser(after[|after| - 1])
      && Member(after[|after| - 1], "content") == Hinted(Member(last, "content").value, hint)
  {
    assert |"role"| != |"content"|;
  }

  lemma HintIsText(hint: string)
    ensures BlockText(TextBlock(hint)) == Some(hint)
  {
    assert "type"[1] != "text"[1];
  }

  // The model reads the hint, then newlines, then exactly the text the user wrote.
  lemma HintComesBeforeTheText(messages: seq<Json>, hint: string) returns (gap: string)
    requires LastUserText(messages).Some? && hint != []
    ensures Newlines(gap) && gap != [] && Prepend(messages, hint).Some?
    ensures LastUserText(Prepend(messages, hint).value) == Some(hint + gap + LastUserText(messages).value)
  {
    LastOfPrepended(messages, hint);
    match Member(messages[|messages| - 1], "content").value
    case String(text) =>
      gap := "\n\n";
      Associative(hint, gap, text);
    case Array(blocks) =>
      gap := GatheredAfter(hint, blocks);
      HintIsText(hint);
      assert ([TextBlock(hint)] + blocks)[1..] == blocks;
  }

  // ---- which text is read ----

  function Said(role: string, content: Json): Json
  {
    Object(map["role" := String(role), "content" := content])
  }

  lemma SaidIs(role: string, content: Json)
    ensures AsText(Member(Said(role, content), "role")) == Some(role) && Member(Said(role, content), "content") == Some(content)
  {
    assert |"role"| == 4 && |"content"| == 7;
  }

  function TextBlocks(texts: seq<string>): seq<Json>
  {
    seq(|texts|, i requires 0 <= i < |texts| => TextBlock(texts[i]))
  }

  lemma {:induction false} TextsGather(buf: string, texts: seq<string>)
    requires buf != []
    ensures Gathered(buf, TextBlocks(texts)) == JoinLines([buf] + texts)
    decreases |texts|
  {
    if texts == [] {
    } else {
      var more := buf + (['\n'] + texts[0]);
      HintIsText(texts[0]);
      assert TextBlocks(texts)[1..] == TextBlocks(texts[1..]);
      TextsGather(more, texts[1..]);
      JoinOn(buf, texts[0], texts[1..]);
    }
  }

  lemma JoinOn(a: string, b: string, rest: seq<string>)
    ensures JoinLines([a] + ([b] + rest)) == JoinLines([a + (['\n'] + b)] + rest)
  {
    assert ([a] + ([b] + rest))[1..] == [b] + rest && ([b] + rest)[1..] == rest;
    assert ([a + (['\n'] + b)] + rest)[1..] == rest;
    if rest != [] {
      Associative(['\n'], b, ['\n'] + JoinLines(rest));
      Associative(a, ['\n'] + b, ['\n'] + JoinLines(rest));
    }
  }

  // The query is what the user said last: a plain text as it is, and the texts of
  // blocks one to a line. Nobody else's message is read, nor an earlier one.
  lemma QueryIsWhatTheUserSaid(before: seq<Json>, role: string, text: string, texts: seq<string>)
    requires texts != [] && texts[0] != []
    ensures LastUserText(before + [Said("user", String(text))]) == Some(text)
    ensures LastUserText(before + [Said("user", Array(TextBlocks(texts)))]) == Some(JoinLines(texts))
    ensures role != "user" ==> LastUserText(before + [Said(role, String(text))]) == None
    ensures LastUserText([]) == None
  {
    SaidIs("user", String(text));
    SaidIs("user", Array(TextBlocks(texts)));
    SaidIs(role, String(text));
    HintIsText(texts[0]);
    assert TextBlocks(texts)[1..] == TextBlocks(texts[1..]);
    TextsGather(texts[0], texts[1..]);
    assert [texts[0]] + texts[1..] == texts;
    assert Gathered([], TextBlocks(texts)) == JoinLines(texts);
    JoinIsNotEmpty(texts);
  }

  lemma JoinIsNotEmpty(texts: seq<string>)
    requires texts != [] && texts[0] != []
    ensures JoinLines(texts) != []
  {
  }

  // Blocks that are no text are passed over.
  lemma OtherBlocksAreSkipped(buf: string, block: Json, blocks: seq<Json>)
    requires Member(block, "type") != Some(String("text"))
    ensures Gathered(buf, [block] + blocks) == Gathered(buf, blocks)
  {
    assert ([block] + blocks)[1..] == blocks;
  }
}
