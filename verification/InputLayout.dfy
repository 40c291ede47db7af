// The composer's layout: logical lines split at newlines, soft-wrapped, placed
// at byte offsets. The rows read back as the text they were cut from.
module InputLayout {
  import opened Prelude
  import opened Utf8
  import opened Wrapping
  import opened TextLines

  // `first` stands for the marker: the prompt sign, or the continuation blanks.
  datatype InputRow = InputRow(first: bool, text: string, start: nat, end: nat)

  // `str::len`.
  function ByteLen(s: string): nat
  {
    DisplayWidth(Width, s)
  }

  lemma {:induction false} ByteLenIsEncodedLength(s: string)
    ensures ByteLen(s) == |Encode(s)|
  {
    if s != [] {
      ByteLenIsEncodedLength(s[1..]);
    }
  }

  // `text.split('\n')`.
  function SplitLines(text: string): (lines: seq<string>)
    ensures lines != [] && forall line <- lines :: '\n' !in line
    decreases |text|
  {
    match Find(text, '\n')
    case None => [text]
    case Some(i) => [text[..i]] + SplitLines(text[i + 1..])
  }

  function Place(texts: seq<string>, first: bool, start: nat): seq<InputRow>
  {
    if texts == [] then []
    else
      var end := start + ByteLen(texts[0]);
      [InputRow(first, texts[0], start, end)] + Place(texts[1..], false, end)
  }

  function RowsOfLine(cw: char -> nat, line: string, limit: nat, first: bool, start: nat): seq<InputRow>
  {
    if line == [] then [InputRow(first, [], start, start)] else Place(Wrap(cw, line, limit), first, start)
  }

  function RowsOfLines(cw: char -> nat, lines: seq<string>, limit: nat, first: bool, start: nat): seq<InputRow>
  {
    if lines == [] then []
    else RowsOfLine(cw, lines[0], limit, first, start)
         + RowsOfLines(cw, lines[1..], limit, false, start + ByteLen(lines[0]) + 1)
  }

  // A full last row gets an empty row below it for the cursor at the text's end.
  function NeedsCursorRow(cw: char -> nat, rows: seq<InputRow>, text: string, cursor: nat, limit: nat): bool
  {
    && rows != [] && cursor == ByteLen(text)
    && var last := rows[|rows| - 1];
       last.end == cursor && last.start != last.end && DisplayWidth(cw, last.text) >= limit
  }

  function LayoutRows(cw: char -> nat, text: string, cursor: nat, limit: nat): seq<InputRow>
  {
    var rows := RowsOfLines(cw, SplitLines(text), limit, true, 0);
    if NeedsCursorRow(cw, rows, text, cursor, limit) then rows + [InputRow(false, [], cursor, cursor)] else rows
  }

  predicate HoldsCursor(rows: seq<InputRow>, i: nat, cursor: nat)
    requires i < |rows|
  {
    || cursor < rows[i].end
    || (cursor == rows[i].end && (i + 1 == |rows| || rows[i + 1].start != cursor))
  }

  // First row from `i` on that holds the cursor, `|rows|` if there is none.
  function FindRow(rows: seq<InputRow>, cursor: nat, i: nat): (r: nat)
    requires i <= |rows|
    ensures i <= r <= |rows|
    ensures r < |rows| ==> HoldsCursor(rows, r, cursor)
    ensures forall j | i <= j < r :: !HoldsCursor(rows, j, cursor)
    decreases |rows| - i
  {
    if i == |rows| || HoldsCursor(rows, i, cursor) then i else FindRow(rows, cursor, i + 1)
  }

  // The newline a row break stands for: one when a byte was skipped, else none.
  function HardBreak(end: nat, start: nat): string
  {
    if start > end then ['\n'] else []
  }

  // Rows laid end to end from `start` to `end`, with one byte skipped at a hard break.
  predicate Chain(rows: seq<InputRow>, start: nat, end: nat)
  {
    && rows != [] && rows[0].start == start && rows[0].end == start + ByteLen(rows[0].text)
    && if |rows| == 1 then rows[0].end == end
       else rows[0].end <= rows[1].start <= rows[0].end + 1 && Chain(rows[1..], rows[1].start, end)
  }

  // The rows read back, with a newline wherever a byte was skipped.
  function Joined(rows: seq<InputRow>): string
  {
    if rows == [] then []
    else if |rows| == 1 then rows[0].text
    else rows[0].text + (HardBreak(rows[0].end, rows[1].start) + Joined(rows[1..]))
  }

  lemma JoinLinesCons(line: string, rest: seq<string>)
    requires rest != []
    ensures JoinLines([line] + rest) == line + (['\n'] + JoinLines(rest))
  {
    assert ([line] + rest)[1..] == rest;
  }

  lemma {:induction false} SplitJoin(text: string)
    ensures JoinLines(SplitLines(text)) == text
    decreases |text|
  {
    match Find(text, '\n')
    case None =>
    case Some(i) =>
      SplitJoin(text[i + 1..]);
      JoinLinesCons(text[..i], SplitLines(text[i + 1..]));
      assert text == text[..i] + (['\n'] + text[i + 1..]);
  }

  lemma Regroup(a: string, gap: string, b: string, rest: string)
    ensures a + (gap + (b + rest)) == (a + (gap + b)) + rest
  {
  }

  // Rows laid from `start` on that read back as `text`.
  predicate Reads(rows: seq<InputRow>, start: nat, text: string)
  {
    Chain(rows, start, start + ByteLen(text)) && Joined(rows) == text
  }

  lemma JoinedCons(row: InputRow, rest: seq<InputRow>)
    requires rest != []
    ensures Joined([row] + rest) == row.text + (HardBreak(row.end, rest[0].start) + Joined(rest))
  {
    assert ([row] + rest)[1..] == rest;
  }

  // Prepending a row to a chain.
  lemma ChainCons(row: InputRow, rest: seq<InputRow>, end: nat)
    requires rest != [] && Chain(rest, rest[0].start, end)
    requires row.end == row.start + ByteLen(row.text) && row.end <= rest[0].start <= row.end + 1
    ensures Chain([row] + rest, row.start, end)
    ensures Joined([row] + rest) == row.text + (HardBreak(row.end, rest[0].start) + Joined(rest))
  {
    var all := [row] + rest;
    assert all[1..] == rest && all[1] == rest[0] && all[0] == row;
    JoinedCons(row, rest);
  }

  // A row put right before the rows that follow its text.
  lemma ReadsCons(row: InputRow, rest: seq<InputRow>, text: string)
    requires row.end == row.start + ByteLen(row.text) && Reads(rest, row.end, text)
    ensures Reads([row] + rest, row.start, row.text + text)
  {
    WidthConcat(Width, row.text, text);
    ChainCons(row, rest, row.end + ByteLen(text));
    assert [] + text == text;
  }

  lemma {:induction false} PlaceChains(texts: seq<string>, first: bool, start: nat)
    requires texts != []
    ensures Reads(Place(texts, first, start), start, Concat(texts))
    decreases |texts|
  {
    var end := start + ByteLen(texts[0]);
    if |texts| == 1 {
      PlaceOne(texts[0], first, start);
      assert texts == [texts[0]];
    } else {
      PlaceChains(texts[1..], false, end);
      ReadsCons(InputRow(first, texts[0], start, end), Place(texts[1..], false, end), Concat(texts[1..]));
    }
  }

  lemma PlaceOne(text: string, first: bool, start: nat)
    ensures Reads(Place([text], first, start), start, Concat([text]))
  {
    assert [text][1..] == [];
    assert text + [] == text;
  }

  // Two chains joined at a hard or a soft break.
  lemma {:induction false} ChainAppend(a: seq<InputRow>, b: seq<InputRow>, start: nat, mid: nat, from: nat, end: nat)
    requires Chain(a, start, mid) && Chain(b, from, end) && mid <= from <= mid + 1
    ensures Chain(a + b, start, end)
    ensures Joined(a + b) == Joined(a) + (HardBreak(mid, from) + Joined(b))
    decreases |a|
  {
    assert a == [a[0]] + a[1..];
    if |a| == 1 {
      ChainCons(a[0], b, end);
      assert a + b == [a[0]] + b;
    } else {
      ChainAppend(a[1..], b, a[1].start, mid, from, end);
      ChainStep(a[0], a[1..], b, HardBreak(mid, from) + Joined(b), end);
    }
  }

  lemma ChainStep(row: InputRow, tail: seq<InputRow>, b: seq<InputRow>, rest: string, end: nat)
    requires tail != [] && Chain(tail + b, tail[0].start, end) && Joined(tail + b) == Joined(tail) + rest
    requires row.end == row.start + ByteLen(row.text) && row.end <= tail[0].start <= row.end + 1
    ensures Chain([row] + tail + b, row.start, end)
    ensures Joined([row] + tail + b) == Joined([row] + tail) + rest
  {
    var all := tail + b;
    assert all[0] == tail[0];
    ChainCons(row, all, end);
    Prepended(row, tail, b);
    JoinedCons(row, tail);
    Regroup(row.text, HardBreak(row.end, tail[0].start), Joined(tail), rest);
  }

  lemma Prepended(row: InputRow, tail: seq<InputRow>, b: seq<InputRow>)
    ensures [row] + (tail + b) == [row] + tail + b
  {
  }

  lemma LineChains(cw: char -> nat, line: string, limit: nat, first: bool, start: nat)
    ensures Reads(RowsOfLine(cw, line, limit, first, start), start, line)
  {
    if line != [] {
      WrapCovers(cw, line, limit);
      PlaceChains(Wrap(cw, line, limit), first, start);
    }
  }

  lemma JoinedLength(line: string, rest: string)
    ensures ByteLen(line + (['\n'] + rest)) == ByteLen(line) + 1 + ByteLen(rest)
  {
    WidthConcat(Width, line, ['\n'] + rest);
    assert (['\n'] + rest)[1..] == rest;
  }

  lemma {:induction false} LinesChain(cw: char -> nat, lines: seq<string>, limit: nat, first: bool, start: nat)
    requires lines != []
    ensures Reads(RowsOfLines(cw, lines, limit, first, start), start, JoinLines(lines))
    decreases |lines|
  {
    var line, from := lines[0], start + ByteLen(lines[0]) + 1;
    LineChains(cw, line, limit, first, start);
    if |lines| == 1 {
      LastLine(cw, lines, limit, first, start);
    } else {
      var more := lines[1..];
      var a, b := RowsOfLine(cw, line, limit, first, start), RowsOfLines(cw, more, limit, false, from);
      LinesChain(cw, more, limit, false, from);
      ReadsAppend(a, b, start, line, JoinLines(more));
      assert RowsOfLines(cw, lines, limit, first, start) == a + b;
      assert JoinLines(lines) == line + (['\n'] + JoinLines(more));
    }
  }

  lemma LastLine(cw: char -> nat, lines: seq<string>, limit: nat, first: bool, start: nat)
    requires |lines| == 1
    ensures RowsOfLines(cw, lines, limit, first, start) == RowsOfLine(cw, lines[0], limit, first, start)
  {
    assert lines[1..] == [];
    var rows := RowsOfLine(cw, lines[0], limit, first, start);
    assert rows + [] == rows;
  }

  lemma ReadsAppend(a: seq<InputRow>, b: seq<InputRow>, start: nat, line: string, text: string)
    requires Reads(a, start, line) && Reads(b, start + ByteLen(line) + 1, text)
    ensures Reads(a + b, start, line + (['\n'] + text))
  {
    var from := start + ByteLen(line) + 1;
    ChainAppend(a, b, start, from - 1, from, from + ByteLen(text));
    JoinedLength(line, text);
  }

  // The rows cover the text without gap or overlap, and reading them back with a
  // newline at each hard break gives the text.
  lemma LayoutRoundTrip(cw: char -> nat, text: string, cursor: nat, limit: nat)
    ensures Chain(LayoutRows(cw, text, cursor, limit), 0, ByteLen(text))
    ensures Joined(LayoutRows(cw, text, cursor, limit)) == text
  {
    var lines := SplitLines(text);
    var rows := RowsOfLines(cw, lines, limit, true, 0);
    SplitJoin(text);
    LinesChain(cw, lines, limit, true, 0);
    if NeedsCursorRow(cw, rows, text, cursor, limit) {
      AppendCursorRow(rows, cursor);
    }
  }

  lemma AppendCursorRow(rows: seq<InputRow>, cursor: nat)
    requires Chain(rows, 0, cursor)
    ensures
      var all := rows + [InputRow(false, [], cursor, cursor)];
      Chain(all, 0, cursor) && Joined(all) == Joined(rows)
  {
    ChainAppend(rows, [InputRow(false, [], cursor, cursor)], 0, cursor, cursor, cursor);
    assert Joined(rows) + ([] + []) == Joined(rows);
  }

  // What the search relies on: consecutive rows leave no cursor position out.
  lemma {:induction false} ChainAt(rows: seq<InputRow>, start: nat, end: nat, i: nat)
    requires Chain(rows, start, end) && i < |rows|
    ensures start <= rows[i].start <= rows[i].end <= end
    ensures rows[i].end == rows[i].start + ByteLen(rows[i].text)
    ensures i + 1 == |rows| ==> rows[i].end == end
    ensures i + 1 < |rows| ==> rows[i].end <= rows[i + 1].start <= rows[i].end + 1
    decreases |rows|
  {
    if |rows| > 1 {
      ChainAt(rows[1..], rows[1].start, end, if i == 0 then 0 else i - 1);
    }
  }

  // The search always succeeds, and the row it finds contains the cursor.
  lemma CursorRowContainsCursor(rows: seq<InputRow>, end: nat, cursor: nat)
    requires Chain(rows, 0, end) && cursor <= end
    ensures
      var r := FindRow(rows, cursor, 0);
      r < |rows| && rows[r].start <= cursor <= rows[r].end
  {
    var r, last := FindRow(rows, cursor, 0), |rows| - 1;
    ChainAt(rows, 0, end, last);
    assert HoldsCursor(rows, last, cursor);
    if r > 0 {
      ChainAt(rows, 0, end, r - 1);
      assert !HoldsCursor(rows, r - 1, cursor);
    }
  }

  // A row's text is the text at its byte range.
  lemma {:induction false} RowText(rows: seq<InputRow>, start: nat, end: nat, i: nat) returns (before: string, after: string)
    requires Chain(rows, start, end) && i < |rows|
    ensures Joined(rows) == before + (rows[i].text + after)
    ensures start + ByteLen(before) == rows[i].start
    ensures rows[i].end == rows[i].start + ByteLen(rows[i].text)
    decreases |rows|
  {
    var text := rows[0].text;
    if i == 0 {
      before, after := [], if |rows| == 1 then [] else HardBreak(rows[0].end, rows[1].start) + Joined(rows[1..]);
      assert text + [] == text;
      assert [] + (text + after) == text + after;
    } else {
      var rest;
      rest, after := RowText(rows[1..], rows[1].start, end, i - 1);
      var gap := HardBreak(rows[0].end, rows[1].start);
      before := text + (gap + rest);
      Regroup(text, gap, rest, rows[i].text + after);
      WidthConcat(Width, text, gap + rest);
      assert [] + rest == rest;
      assert (['\n'] + rest)[1..] == rest;
    }
  }
}
