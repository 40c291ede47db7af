// No row of the layout is superfluous, only the first carries the prompt marker,
// and at a soft break the cursor is on the lower row.
module InputTightness {
  import opened Wrapping
  import opened InputLayout
  import opened InputCursor

  // What the first character below would add to a row; the cursor takes one column.
  function Demand(cw: char -> nat, text: string): nat
  {
    if text == [] then 1 else cw(text[0])
  }

  // Row `i` could not take what comes next on the same line.
  predicate TightAt(cw: char -> nat, rows: seq<InputRow>, limit: nat, i: nat)
    requires i + 1 < |rows|
  {
    rows[i].end == rows[i + 1].start ==> DisplayWidth(cw, rows[i].text) + Demand(cw, rows[i + 1].text) > limit
  }

  predicate Tight(cw: char -> nat, rows: seq<InputRow>, limit: nat)
  {
    forall i | 0 <= i < |rows| - 1 :: TightAt(cw, rows, limit, i)
  }

  lemma {:induction false} PlaceText(texts: seq<string>, first: bool, start: nat, i: nat)
    requires i < |texts|
    ensures |Place(texts, first, start)| == |texts| && Place(texts, first, start)[i].text == texts[i]
    ensures Place(texts, first, start)[i].first == (first && i == 0)
    decreases |texts|
  {
    var end := start + ByteLen(texts[0]);
    if i > 0 {
      PlaceText(texts[1..], false, end, i - 1);
    } else if |texts| > 1 {
      PlaceText(texts[1..], false, end, 0);
    }
  }

  lemma LineIsTight(cw: char -> nat, line: string, limit: nat, first: bool, start: nat)
    ensures Tight(cw, RowsOfLine(cw, line, limit, first, start), limit)
  {
    if line != [] {
      var texts, rows := Wrap(cw, line, limit), RowsOfLine(cw, line, limit, first, start);
      PlaceText(texts, first, start, 0);
      forall i | 0 <= i < |rows| - 1 ensures TightAt(cw, rows, limit, i) {
        PlaceText(texts, first, start, i);
        PlaceText(texts, first, start, i + 1);
        WrapIsMaximal(cw, line, limit, i);
      }
    }
  }

  // Rows on both sides of a hard break.
  lemma TightAcross(cw: char -> nat, a: seq<InputRow>, b: seq<InputRow>, limit: nat)
    requires Tight(cw, a, limit) && Tight(cw, b, limit)
    requires a != [] && b != [] ==> a[|a| - 1].end != b[0].start
    ensures Tight(cw, a + b, limit)
  {
    var all := a + b;
    forall i | 0 <= i < |all| - 1 ensures TightAt(cw, all, limit, i) {
      if i + 1 < |a| {
        assert TightAt(cw, a, limit, i);
      } else if i >= |a| {
        assert TightAt(cw, b, limit, i - |a|);
      }
    }
  }

  lemma LineEnds(cw: char -> nat, line: string, limit: nat, first: bool, start: nat)
    ensures
      var rows := RowsOfLine(cw, line, limit, first, start);
      rows != [] && rows[0].start == start && rows[|rows| - 1].end == start + ByteLen(line)
  {
    var rows := RowsOfLine(cw, line, limit, first, start);
    LineChains(cw, line, limit, first, start);
    ChainAt(rows, start, start + ByteLen(line), |rows| - 1);
  }

  lemma {:induction false} LinesAreTight(cw: char -> nat, lines: seq<string>, limit: nat, first: bool, start: nat)
    ensures Tight(cw, RowsOfLines(cw, lines, limit, first, start), limit)
    decreases |lines|
  {
    if lines != [] {
      var from := start + ByteLen(lines[0]) + 1;
      LineIsTight(cw, lines[0], limit, first, start);
      LineEnds(cw, lines[0], limit, first, start);
      LinesAreTight(cw, lines[1..], limit, false, from);
      if |lines| > 1 {
        LineEnds(cw, lines[1], limit, false, from);
      }
      TightAcross(cw, RowsOfLine(cw, lines[0], limit, first, start), RowsOfLines(cw, lines[1..], limit, false, from), limit);
    }
  }

  // A row begins a line of the text only where the one above could not take what
  // comes next: the next character, or the cursor behind the last one.
  lemma LayoutIsTight(cw: char -> nat, text: string, cursor: nat, limit: nat)
    ensures Tight(cw, LayoutRows(cw, text, cursor, limit), limit)
  {
    var rows := RowsOfLines(cw, SplitLines(text), limit, true, 0);
    LinesAreTight(cw, SplitLines(text), limit, true, 0);
    if NeedsCursorRow(cw, rows, text, cursor, limit) {
      CursorRowIsTight(cw, rows, cursor, limit);
    }
  }

  lemma CursorRowIsTight(cw: char -> nat, rows: seq<InputRow>, cursor: nat, limit: nat)
    requires Tight(cw, rows, limit) && rows != [] && DisplayWidth(cw, rows[|rows| - 1].text) >= limit
    ensures Tight(cw, rows + [InputRow(false, [], cursor, cursor)], limit)
  {
    var all := rows + [InputRow(false, [], cursor, cursor)];
    forall i | 0 <= i < |all| - 1 ensures TightAt(cw, all, limit, i) {
      if i + 1 < |rows| {
        assert TightAt(cw, rows, limit, i);
      }
    }
  }

  // The layout, for rows that are known.
  lemma LayoutIs(cw: char -> nat, text: string, cursor: nat, width: nat, rows: seq<InputRow>)
    requires rows == LayoutRows(cw, text, cursor, AtLeastOne(width)) && rows != []
    ensures
      var l := LayoutOf(cw, text, cursor, width);
      && l.rows == rows && l.cursorRow == CursorRow(rows, cursor)
      && (rows[l.cursorRow].start <= rows[l.cursorRow].end ==> l.cursorCol == CursorCol(cw, rows[l.cursorRow], cursor))
  {
  }

  lemma ColumnAtEnd(cw: char -> nat, row: InputRow)
    requires row.start == 0 && row.end == ByteLen(row.text)
    ensures CursorCol(cw, row, row.end) == DisplayWidth(cw, row.text)
  {
    WithinExact(row.text, |row.text|);
    assert row.text[..|row.text|] == row.text;
  }

  // So a cursor behind text that leaves room stays on the row of that text.
  lemma CursorStaysWhereThereIsRoom(cw: char -> nat, text: string, limit: nat)
    requires text != [] && '\n' !in text && limit > 0 && DisplayWidth(cw, text) < limit
    ensures
      var l := LayoutOf(cw, text, ByteLen(text), limit);
      && l.rows == [InputRow(true, text, 0, ByteLen(text))]
      && l.cursorRow == 0 && l.cursorCol == DisplayWidth(cw, text)
  {
    var row := InputRow(true, text, 0, ByteLen(text));
    WholeLine(cw, text, limit);
    EndIsOnLastRow([row], row.end);
    LayoutIs(cw, text, row.end, limit, [row]);
    ColumnAtEnd(cw, row);
  }

  lemma WrapWhole(cw: char -> nat, text: string, limit: nat)
    requires text != [] && DisplayWidth(cw, text) <= limit
    ensures Wrap(cw, text, limit) == [text]
  {
    assert text[..|text|] == text && text[|text|..] == [];
    FirstRowIsLongest(cw, text, limit, |text|);
  }

  lemma PlaceOnly(text: string, first: bool, start: nat)
    ensures Place([text], first, start) == [InputRow(first, text, start, start + ByteLen(text))]
  {
    assert [text][1..] == [];
  }

  lemma RowsOfOne(cw: char -> nat, text: string, limit: nat)
    requires text != [] && '\n' !in text && DisplayWidth(cw, text) <= limit
    ensures RowsOfLines(cw, SplitLines(text), limit, true, 0) == [InputRow(true, text, 0, ByteLen(text))]
  {
    var row := [InputRow(true, text, 0, ByteLen(text))];
    WrapWhole(cw, text, limit);
    PlaceOnly(text, true, 0);
    assert SplitLines(text) == [text] && [text][1..] == [];
    assert RowsOfLine(cw, text, limit, true, 0) == row;
    assert row + [] == row;
  }

  lemma WholeLine(cw: char -> nat, text: string, limit: nat)
    requires text != [] && '\n' !in text && DisplayWidth(cw, text) < limit
    ensures LayoutRows(cw, text, ByteLen(text), limit) == [InputRow(true, text, 0, ByteLen(text))]
    ensures Chain(LayoutRows(cw, text, ByteLen(text), limit), 0, ByteLen(text))
  {
    RowsOfOne(cw, text, limit);
    RowsCover(cw, text, ByteLen(text), limit);
  }

  // ---- the marker ----

  // Row `i` is marked if it is the first of rows that begin with a mark.
  predicate MarkedFrom(rows: seq<InputRow>, first: bool)
  {
    forall i | 0 <= i < |rows| :: rows[i].first == (first && i == 0)
  }

  lemma LineMarks(cw: char -> nat, line: string, limit: nat, first: bool, start: nat)
    ensures MarkedFrom(RowsOfLine(cw, line, limit, first, start), first)
  {
    var rows := RowsOfLine(cw, line, limit, first, start);
    if line != [] {
      PlaceText(Wrap(cw, line, limit), first, start, 0);
      forall i | 0 <= i < |rows| ensures rows[i].first == (first && i == 0) {
        PlaceText(Wrap(cw, line, limit), first, start, i);
      }
    }
  }

  lemma MarkedAppend(a: seq<InputRow>, b: seq<InputRow>, first: bool)
    requires a != [] && MarkedFrom(a, first) && MarkedFrom(b, false)
    ensures MarkedFrom(a + b, first)
  {
  }

  lemma {:induction false} LinesMark(cw: char -> nat, lines: seq<string>, limit: nat, first: bool, start: nat)
    ensures MarkedFrom(RowsOfLines(cw, lines, limit, first, start), first)
    decreases |lines|
  {
    if lines != [] {
      var from := start + ByteLen(lines[0]) + 1;
      LineEnds(cw, lines[0], limit, first, start);
      LineMarks(cw, lines[0], limit, first, start);
      LinesMark(cw, lines[1..], limit, false, from);
      MarkedAppend(RowsOfLine(cw, lines[0], limit, first, start), RowsOfLines(cw, lines[1..], limit, false, from), first);
    }
  }

  // Only the first row carries the prompt marker.
  lemma OnlyFirstRowIsMarked(cw: char -> nat, text: string, cursor: nat, limit: nat)
    ensures MarkedFrom(LayoutRows(cw, text, cursor, limit), true)
  {
    var rows := RowsOfLines(cw, SplitLines(text), limit, true, 0);
    LinesMark(cw, SplitLines(text), limit, true, 0);
    if NeedsCursorRow(cw, rows, text, cursor, limit) {
      MarkedAppend(rows, [InputRow(false, [], cursor, cursor)], true);
    }
  }

  // ---- the cursor's row ----

  lemma {:induction false} ChainOrder(rows: seq<InputRow>, end: nat, i: nat, j: nat)
    requires Chain(rows, 0, end) && i < j < |rows|
    ensures rows[i + 1].start <= rows[j].start
    decreases j
  {
    ChainAt(rows, 0, end, j);
    if i + 1 < j {
      ChainOrder(rows, end, i, j - 1);
      ChainAt(rows, 0, end, j - 1);
    }
  }

  // Of the rows that contain the cursor, it is on the last one: a cursor at a soft
  // break is at the start of the lower row.
  lemma CursorIsOnLastRow(rows: seq<InputRow>, end: nat, cursor: nat, j: nat)
    requires Chain(rows, 0, end) && cursor <= end && FindRow(rows, cursor, 0) < j < |rows|
    ensures !(rows[j].start <= cursor <= rows[j].end)
  {
    var r := FindRow(rows, cursor, 0);
    CursorRowContainsCursor(rows, end, cursor);
    ChainAt(rows, 0, end, r);
    ChainOrder(rows, end, r, j);
  }
}
