// The last stage of rendering a message body: blank lines are squeezed, lines
// trimmed, and the edges cleaned.
module Compaction {
  import opened Prelude
  import opened TextLines

  // `line.trim_end()`, then `trim_start()`; empty exactly for blank lines.
  function Strip(line: string): string
  {
    TrimStart(TrimEnd(line))
  }

  lemma StripIsTrimmed(line: string)
    ensures Trimmed(Strip(line)) && (Strip(line) == [] <==> Blank(line))
    ensures forall c <- Strip(line) :: c in line
  {
    StripTrims(line);
    StripOfBlank(line);
    StripKeeps(line);
  }

  lemma StripTrims(line: string)
    ensures Trimmed(Strip(line))
  {
    var kept, t := TrimEnd(line), Strip(line);
    if t != [] {
      assert t[|t| - 1] == kept[|kept| - 1];
    }
  }

  lemma StripOfBlank(line: string)
    ensures Strip(line) == [] <==> Blank(line)
  {
    var kept, t := TrimEnd(line), Strip(line);
    if t == [] {
      assert forall i | 0 <= i < |line| :: IsWhitespace(line[i]);
    } else {
      assert t[0] == kept[|kept| - |t|] == line[|kept| - |t|];
    }
  }

  lemma StripKeeps(line: string)
    ensures forall c <- Strip(line) :: c in line
  {
    var kept, t := TrimEnd(line), Strip(line);
    forall c | c in t ensures c in line {
      assert c in kept;
    }
  }

  function Mapped(lines: seq<string>, strip: string -> string): seq<string>
  {
    seq(|lines|, i requires 0 <= i < |lines| => strip(lines[i]))
  }

  function Pieces(lines: seq<string>): seq<string>
  {
    Mapped(lines, Strip)
  }

  // One more stripped line: an empty one counts only as a gap after a solid line.
  function Squeezed(done: seq<string>, piece: string): seq<string>
  {
    if piece == [] && (done == [] || done[|done| - 1] == []) then done else done + [piece]
  }

  function Squeeze(done: seq<string>, pieces: seq<string>): seq<string>
    decreases |pieces|
  {
    if pieces == [] then done else Squeeze(Squeezed(done, pieces[0]), pieces[1..])
  }

  // A gap at the end is dropped.
  function Chop(lines: seq<string>): seq<string>
  {
    if lines != [] && lines[|lines| - 1] == [] then lines[..|lines| - 1] else lines
  }

  function CompactLines(text: string): seq<string>
  {
    Chop(Squeeze([], Pieces(Lines(text))))
  }

  function Compact(text: string): string
  {
    JoinLines(CompactLines(text))
  }

  // ---- the shape of the result ----

  // No blank line at the top, no two adjacent blank lines.
  predicate Spaced(lines: seq<string>)
  {
    (lines != [] ==> lines[0] != []) && forall i | 0 < i < |lines| :: lines[i] != [] || lines[i - 1] != []
  }

  lemma {:induction false} SqueezeIsSpaced(done: seq<string>, pieces: seq<string>)
    requires Spaced(done)
    ensures Spaced(Squeeze(done, pieces))
    decreases |pieces|
  {
    if pieces != [] {
      SqueezeIsSpaced(Squeezed(done, pieces[0]), pieces[1..]);
    }
  }

  lemma {:induction false} SqueezeAddsNothing(done: seq<string>, pieces: seq<string>)
    ensures forall line <- Squeeze(done, pieces) :: line in done || line in pieces
    decreases |pieces|
  {
    if pieces != [] {
      SqueezeAddsNothing(Squeezed(done, pieces[0]), pieces[1..]);
    }
  }

  predicate CleanLine(line: string)
  {
    Trimmed(line) && '\n' !in line
  }

  lemma PiecesAreClean(lines: seq<string>)
    requires forall line <- lines :: '\n' !in line
    ensures forall piece <- Pieces(lines) :: CleanLine(piece)
  {
    forall i | 0 <= i < |lines| ensures CleanLine(Pieces(lines)[i]) {
      StripIsTrimmed(lines[i]);
      assert lines[i] in lines;
    }
  }

  lemma ChopIsSolid(lines: seq<string>)
    requires Spaced(lines)
    ensures Spaced(Chop(lines)) && (Chop(lines) != [] ==> Chop(lines)[|Chop(lines)| - 1] != [])
    ensures forall line <- Chop(lines) :: line in lines
  {
  }

  lemma CompactLinesAreClean(text: string)
    ensures forall line <- CompactLines(text) :: CleanLine(line)
    ensures Spaced(CompactLines(text))
    ensures CompactLines(text) != [] ==> CompactLines(text)[|CompactLines(text)| - 1] != []
  {
    var pieces := Pieces(Lines(text));
    PiecesAreClean(Lines(text));
    SqueezeAddsNothing([], pieces);
    SqueezeIsSpaced([], pieces);
    ChopIsSolid(Squeeze([], pieces));
  }

  // The lines of the result are trimmed, with never two adjacent blank ones and
  // no blank edges.
  lemma CompactIsTidy(text: string)
    ensures
      var lines := Lines(Compact(text));
      && lines == CompactLines(text) && Spaced(lines) && (lines != [] ==> lines[|lines| - 1] != [])
      && forall line <- lines :: CleanLine(line)
  {
    CompactLinesAreClean(text);
    forall line <- CompactLines(text) ensures '\n' !in line && StripCr(line) == line {
      assert CleanLine(line);
    }
    LinesOfJoin(CompactLines(text));
  }

  // ---- the solid lines are kept ----

  function NonEmpty(piece: string): seq<string>
  {
    if piece == [] then [] else [piece]
  }

  // The trimmed non-blank lines of a text, in order.
  function SolidLines(text: string): seq<string>
  {
    FlatMap(Pieces(Lines(text)), NonEmpty)
  }

  lemma {:induction false} SqueezeKeeps(done: seq<string>, pieces: seq<string>)
    ensures FlatMap(Squeeze(done, pieces), NonEmpty) == FlatMap(done, NonEmpty) + FlatMap(pieces, NonEmpty)
    decreases |pieces|
  {
    var kept := FlatMap(done, NonEmpty);
    if pieces == [] {
      assert kept + [] == kept;
    } else {
      SqueezeKeeps(Squeezed(done, pieces[0]), pieces[1..]);
      FlatMapSnoc(done, pieces[0], NonEmpty);
      assert kept + [] == kept;
      Associative(kept, NonEmpty(pieces[0]), FlatMap(pieces[1..], NonEmpty));
    }
  }

  lemma ChopKeeps(lines: seq<string>)
    ensures FlatMap(Chop(lines), NonEmpty) == FlatMap(lines, NonEmpty)
  {
    if lines != [] && lines[|lines| - 1] == [] {
      var front := lines[..|lines| - 1];
      FlatMapSnoc(front, [], NonEmpty);
      assert lines == front + [[]];
      assert FlatMap(front, NonEmpty) + [] == FlatMap(front, NonEmpty);
    }
  }

  lemma CleanPieces(lines: seq<string>)
    requires forall line <- lines :: CleanLine(line)
    ensures Pieces(lines) == lines
  {
    forall i | 0 <= i < |lines| ensures Strip(lines[i]) == lines[i] {
      assert CleanLine(lines[i]);
      TrimIdentity(lines[i]);
    }
  }

  // The sequence of trimmed non-blank lines survives.
  lemma CompactKeepsSolidLines(text: string)
    ensures SolidLines(Compact(text)) == SolidLines(text)
  {
    var pieces := Pieces(Lines(text));
    CompactIsTidy(text);
    CleanPieces(CompactLines(text));
    SqueezeKeeps([], pieces);
    ChopKeeps(Squeeze([], pieces));
    assert [] + SolidLines(text) == SolidLines(text);
  }

  // ---- paragraphs ----

  // The paragraphs read so far, and whether the last one goes on.
  datatype Reading = Reading(paragraphs: seq<seq<string>>, open: bool)

  const NOTHING_READ: Reading := Reading([], false)

  function ReadOn(r: Reading, piece: string): Reading
  {
    if piece == [] then r.(open := false)
    else if r.open && r.paragraphs != [] then
      var n := |r.paragraphs| - 1;
      Reading(r.paragraphs[..n] + [r.paragraphs[n] + [piece]], true)
    else Reading(r.paragraphs + [[piece]], true)
  }

  function ReadAll(r: Reading, pieces: seq<string>): Reading
  {
    if pieces == [] then r else ReadOn(ReadAll(r, pieces[..|pieces| - 1]), pieces[|pieces| - 1])
  }

  // The runs of lines with no blank one between them, trimmed.
  function Paragraphs(text: string): seq<seq<string>>
  {
    ReadAll(NOTHING_READ, Pieces(Lines(text))).paragraphs
  }

  lemma ReadSnoc(done: seq<string>, piece: string)
    ensures ReadAll(NOTHING_READ, done + [piece]) == ReadOn(ReadAll(NOTHING_READ, done), piece)
  {
    assert (done + [piece])[..|done|] == done;
  }

  lemma SqueezedReads(done: seq<string>, piece: string)
    ensures ReadAll(NOTHING_READ, Squeezed(done, piece)) == ReadOn(ReadAll(NOTHING_READ, done), piece)
  {
    ReadSnoc(done, piece);
  }

  lemma {:induction false} SqueezeReads(done: seq<string>, pieces: seq<string>, read: seq<string>)
    requires ReadAll(NOTHING_READ, done) == ReadAll(NOTHING_READ, read)
    ensures ReadAll(NOTHING_READ, Squeeze(done, pieces)) == ReadAll(NOTHING_READ, read + pieces)
    decreases |pieces|
  {
    if pieces == [] {
      assert read + [] == read;
    } else {
      OneMoreRead(done, read, pieces[0]);
      SqueezeReads(Squeezed(done, pieces[0]), pieces[1..], read + [pieces[0]]);
      assert read + [pieces[0]] + pieces[1..] == read + pieces;
    }
  }

  lemma OneMoreRead(done: seq<string>, read: seq<string>, piece: string)
    requires ReadAll(NOTHING_READ, done) == ReadAll(NOTHING_READ, read)
    ensures ReadAll(NOTHING_READ, Squeezed(done, piece)) == ReadAll(NOTHING_READ, read + [piece])
  {
    SqueezedReads(done, piece);
    ReadSnoc(read, piece);
  }

  lemma ChopReads(lines: seq<string>)
    ensures ReadAll(NOTHING_READ, Chop(lines)).paragraphs == ReadAll(NOTHING_READ, lines).paragraphs
  {
  }

  // Lines stay in the paragraphs they were in: what was apart stays apart, and
  // what was together together.
  lemma CompactKeepsParagraphs(text: string)
    ensures Paragraphs(Compact(text)) == Paragraphs(text)
  {
    var pieces := Pieces(Lines(text));
    CompactIsTidy(text);
    CleanPieces(CompactLines(text));
    SqueezeReads([], pieces, []);
    ChopReads(Squeeze([], pieces));
    assert [] + pieces == pieces;
  }

  // ---- compacting twice changes nothing ----

  lemma {:induction false} SqueezeSpaced(lines: seq<string>, k: nat)
    requires Spaced(lines) && k <= |lines|
    ensures Squeeze(lines[..k], lines[k..]) == lines
    decreases |lines| - k
  {
    if k < |lines| {
      assert lines[k..][1..] == lines[k + 1..];
      assert lines[..k] + [lines[k]] == lines[..k + 1];
      SqueezeSpaced(lines, k + 1);
    } else {
      assert lines[..k] == lines && lines[k..] == [];
    }
  }

  lemma CompactIsIdempotent(text: string)
    ensures Compact(Compact(text)) == Compact(text)
  {
    CompactIsTidy(text);
    var lines := CompactLines(text);
    CleanPieces(lines);
    SqueezeSpaced(lines, 0);
    assert lines[..0] == [] && lines[0..] == lines;
  }

  // ---- the loop, on one output string ----

  // The output while it is being built: every line with its newline.
  function Terminated(lines: seq<string>): string
  {
    if lines == [] then [] else Terminated(lines[..|lines| - 1]) + lines[|lines| - 1] + ['\n']
  }

  lemma TerminatedSnoc(lines: seq<string>, line: string)
    ensures Terminated(lines + [line]) == Terminated(lines) + line + ['\n']
  {
    assert (lines + [line])[..|lines|] == lines;
  }

  lemma {:induction false} JoinSnoc(lines: seq<string>, line: string)
    requires lines != []
    ensures JoinLines(lines + [line]) == JoinLines(lines) + ['\n'] + line
    decreases |lines|
  {
    var all := lines + [line];
    assert all[1..] == lines[1..] + [line];
    if |lines| == 1 {
      assert all[1..] == [line];
    } else {
      JoinSnoc(lines[1..], line);
      var rest := JoinLines(lines[1..]);
      assert lines[0] + (['\n'] + (rest + ['\n'] + line)) == lines[0] + (['\n'] + rest) + ['\n'] + line;
    }
  }

  lemma {:induction false} TerminatedIsJoin(lines: seq<string>)
    requires lines != []
    ensures Terminated(lines) == JoinLines(lines) + ['\n']
    decreases |lines|
  {
    var front, last := lines[..|lines| - 1], lines[|lines| - 1];
    if front == [] {
      assert lines == [last];
    } else {
      TerminatedIsJoin(front);
      JoinSnoc(front, last);
      assert lines == front + [last];
    }
  }

  lemma TerminatedChopped(lines: seq<string>) returns (tail: string)
    requires lines != [] && Chop(lines) != []
    ensures Terminated(lines) == JoinLines(Chop(lines)) + tail && (tail == ['\n'] || tail == ['\n', '\n'])
  {
    var kept := Chop(lines);
    TerminatedIsJoin(kept);
    if kept == lines {
      tail := ['\n'];
    } else {
      tail := ['\n', '\n'];
      TerminatedSnoc(kept, []);
      assert lines == kept + [[]];
    }
  }

  lemma {:induction false} TrimEndDrops(s: string, tail: string)
    requires Blank(tail) && (s != [] ==> !IsWhitespace(s[|s| - 1]))
    ensures TrimEnd(s + tail) == s
    decreases |tail|
  {
    if tail == [] {
      assert s + tail == s;
    } else {
      var shorter := tail[..|tail| - 1];
      assert (s + tail)[..|s + tail| - 1] == s + shorter;
      assert IsWhitespace((s + tail)[|s + tail| - 1]);
      TrimEndDrops(s, shorter);
    }
  }

  lemma TrimDropsTail(s: string, tail: string)
    requires s != [] && Trimmed(s) && Blank(tail)
    ensures Trim(s + tail) == s
  {
    assert TrimStart(s + tail) == s + tail;
    TrimEndDrops(s, tail);
  }

  lemma JoinIsTrimmed(lines: seq<string>)
    requires lines != [] && lines[0] != [] && lines[|lines| - 1] != []
    requires Trimmed(lines[0]) && Trimmed(lines[|lines| - 1])
    ensures JoinLines(lines) != [] && Trimmed(JoinLines(lines))
  {
    if |lines| > 1 {
      var front, last := lines[..|lines| - 1], lines[|lines| - 1];
      assert lines == front + [last];
      JoinSnocIsTrimmed(front, last);
    }
  }

  lemma JoinSnocIsTrimmed(front: seq<string>, last: string)
    requires front != [] && front[0] != [] && last != [] && Trimmed(front[0]) && Trimmed(last)
    ensures JoinLines(front + [last]) != [] && Trimmed(JoinLines(front + [last]))
  {
    var text, start := JoinLines(front + [last]), JoinLines(front);
    JoinSnoc(front, last);
    JoinStarts(front);
    assert front[0] <= start <= text;
    EdgesAreTrimmed(text, front[0], start + ['\n'], last);
  }

  lemma JoinStarts(lines: seq<string>)
    requires lines != []
    ensures lines[0] <= JoinLines(lines)
  {
  }

  lemma EdgesAreTrimmed(text: string, first: string, front: string, last: string)
    requires first <= text && text == front + last && first != [] && last != []
    requires Trimmed(first) && Trimmed(last)
    ensures Trimmed(text)
  {
    assert text[0] == first[0] && text[|text| - 1] == last[|last| - 1];
  }

  lemma ChoppedEdges(lines: seq<string>)
    requires lines != [] && Spaced(lines) && forall line <- lines :: CleanLine(line)
    ensures
      var kept := Chop(lines);
      && kept != [] && kept[0] != [] && kept[|kept| - 1] != []
      && Trimmed(kept[0]) && Trimmed(kept[|kept| - 1])
  {
    var kept := Chop(lines);
    assert kept[0] == lines[0] && kept[|kept| - 1] == lines[|kept| - 1];
    assert CleanLine(lines[0]) && CleanLine(lines[|kept| - 1]);
  }

  // Trimming what the loop built leaves the chopped lines, joined.
  lemma TrimTerminated(lines: seq<string>)
    requires Spaced(lines) && forall line <- lines :: CleanLine(line)
    ensures Trim(Terminated(lines)) == JoinLines(Chop(lines))
  {
    if lines != [] {
      var kept := Chop(lines);
      ChoppedEdges(lines);
      JoinIsTrimmed(kept);
      var tail := TerminatedChopped(lines);
      TrimDropsTail(JoinLines(kept), tail);
    }
  }

  // What one line appends.
  lemma TerminatedSqueezed(done: seq<string>, piece: string)
    ensures
      var out := Terminated(done);
      && Terminated(Squeezed(done, piece)) == (
           if piece != [] then out + piece + ['\n']
           else if done == [] || done[|done| - 1] == [] then out
           else out + ['\n'])
      && (done != [] ==> out != [] && out[|out| - 1] == '\n')
  {
    TerminatedSnoc(done, piece);
    assert Terminated(done) + [] == Terminated(done);
  }

  // `out` holds the lines done, `blankLines` counts the blank ones last seen, and
  // the pieces still to come lead to `goal`.
  predicate Squeezing(done: seq<string>, out: string, blankLines: nat, pieces: seq<string>, goal: seq<string>)
  {
    && out == Terminated(done)
    && (done != [] ==> (blankLines > 0 <==> done[|done| - 1] == []))
    && Squeeze(done, pieces) == goal
  }

  lemma BlankSqueezed(done: seq<string>, out: string, blankLines: nat, pieces: seq<string>, goal: seq<string>)
    requires pieces != [] && pieces[0] == [] && Squeezing(done, out, blankLines, pieces, goal)
    ensures Squeezing(Squeezed(done, []), if blankLines == 0 && out != [] then out + ['\n'] else out, blankLines + 1, pieces[1..], goal)
  {
    TerminatedSqueezed(done, []);
  }

  lemma SolidSqueezed(done: seq<string>, out: string, blankLines: nat, pieces: seq<string>, goal: seq<string>)
    requires pieces != [] && pieces[0] != [] && Squeezing(done, out, blankLines, pieces, goal)
    ensures out != [] ==> out[|out| - 1] == '\n'
    ensures Squeezing(Squeezed(done, pieces[0]), out + pieces[0] + ['\n'], 0, pieces[1..], goal)
  {
    TerminatedSqueezed(done, pieces[0]);
  }

  method SqueezeLines(lines: seq<string>, strip: string -> string) returns (out: string)
    ensures out == Terminated(Squeeze([], Mapped(lines, strip)))
  {
    out := [];
    var blankLines := 0;
    ghost var pieces := Mapped(lines, strip);
    ghost var done, goal := [], Squeeze([], pieces);
    assert pieces[0..] == pieces;
    for i := 0 to |lines|
      invariant Squeezing(done, out, blankLines, pieces[i..], goal)
    {
      var piece := strip(lines[i]);
      assert piece == pieces[i..][0] && pieces[i..][1..] == pieces[i + 1..];
      if piece == [] {
        BlankSqueezed(done, out, blankLines, pieces[i..], goal);
        blankLines := blankLines + 1;
        if blankLines <= 1 && out != [] {
          out := out + ['\n'];
        }
      } else {
        SolidSqueezed(done, out, blankLines, pieces[i..], goal);
        blankLines := 0;
        if out != [] && out[|out| - 1] != '\n' {
          out := out + ['\n'];
        }
        out := out + piece + ['\n'];
      }
      done := Squeezed(done, piece);
    }
  }

  method CompactRenderedHtml(text: string) returns (r: string)
    ensures r == Compact(text)
  {
    var lines := Lines(text);
    var out := SqueezeLines(lines, Strip);
    SqueezeIsSpaced([], Pieces(lines));
    SqueezeAddsNothing([], Pieces(lines));
    PiecesAreClean(lines);
    TrimTerminated(Squeeze([], Pieces(lines)));
    r := Trim(out);
  }
}
