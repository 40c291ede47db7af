// The cursor's row and column in the composer's layout, the visible window, and
// the loops that build the layout.
module InputCursor {
  import opened Prelude
  import opened Utf8
  import opened Wrapping
  import opened InputLayout

  datatype Layout = Layout(rows: seq<InputRow>, cursorRow: nat, cursorCol: nat)

  // The characters that lie wholly within the first `n` bytes.
  function Within(s: string, n: nat): (t: string)
    ensures t <= s && ByteLen(t) <= n
  {
    if s == [] || Width(s[0]) > n then []
    else
      var t := Within(s[1..], n - Width(s[0]));
      assert ([s[0]] + t)[1..] == t;
      [s[0]] + t
  }

  function CursorCol(cw: char -> nat, row: InputRow, cursor: nat): nat
    requires row.start <= row.end
  {
    if cursor < row.start then 0
    else DisplayWidth(cw, Within(row.text, (if cursor < row.end then cursor else row.end) - row.start))
  }

  // On a boundary of `s` the characters within are exactly the bytes before it.
  lemma WithinBoundary(s: string, n: nat)
    requires n <= |Encode(s)| && IsCharBoundary(Encode(s), n)
    ensures Encode(Within(s, n)) == Encode(s)[..n]
  {
    var k := CutAtBoundary(s, n);
    ByteLenIsEncodedLength(s[..k]);
    WithinExact(s, k);
  }

  lemma {:induction false} WithinExact(s: string, k: nat)
    requires k <= |s|
    ensures Within(s, ByteLen(s[..k])) == s[..k]
    decreases k
  {
    if k > 0 {
      assert s[..k][1..] == s[1..][..k - 1];
      WithinExact(s[1..], k - 1);
    }
  }

  // A row's range holds its text, and a boundary inside the range is one of the text.
  lemma RowBytes(rows: seq<InputRow>, end: nat, i: nat, n: nat)
    requires Chain(rows, 0, end) && i < |rows| && n <= |Encode(rows[i].text)|
    ensures
      var b, r := Encode(Joined(rows)), rows[i];
      && r.start + |Encode(r.text)| == r.end <= |b|
      && b[r.start..r.start + n] == Encode(r.text)[..n]
      && (IsCharBoundary(b, r.start + n) ==> IsCharBoundary(Encode(r.text), n))
  {
    var text := rows[i].text;
    var before, after := RowText(rows, 0, end, i);
    ByteLenIsEncodedLength(before);
    ByteLenIsEncodedLength(text);
    EncodeConcat(text, after);
    EncodeConcat(before, text + after);
    MiddleOf(Encode(before), Encode(text), Encode(after), n);
  }

  lemma MiddleOf(x: seq<Byte>, y: seq<Byte>, z: seq<Byte>, n: nat)
    requires n <= |y|
    ensures
      var b := x + (y + z);
      && b[|x|..|x| + n] == y[..n]
      && (IsCharBoundary(b, |x| + n) ==> IsCharBoundary(y, n))
  {
    var b := x + (y + z);
    assert n < |y| ==> b[|x| + n] == y[n];
  }

  // The column is the width of the text between the row's start and the cursor.
  lemma ColumnMeasuresText(rows: seq<InputRow>, end: nat, i: nat, cursor: nat)
    requires Chain(rows, 0, end) && i < |rows| && rows[i].start <= cursor <= rows[i].end
    requires cursor <= |Encode(Joined(rows))| && IsCharBoundary(Encode(Joined(rows)), cursor)
    ensures Encode(Within(rows[i].text, cursor - rows[i].start)) == Encode(Joined(rows))[rows[i].start..cursor]
  {
    var r, n := rows[i], cursor - rows[i].start;
    ChainAt(rows, 0, end, i);
    ByteLenIsEncodedLength(r.text);
    RowBytes(rows, end, i, n);
    WithinBoundary(r.text, n);
  }

  lemma ColumnWithinRow(cw: char -> nat, row: InputRow, cursor: nat)
    requires row.start <= row.end
    ensures CursorCol(cw, row, cursor) <= DisplayWidth(cw, row.text)
    ensures row.start <= cursor <= row.end ==> CursorCol(cw, row, cursor) == DisplayWidth(cw, Within(row.text, cursor - row.start))
  {
    if cursor >= row.start {
      var shown := Within(row.text, (if cursor < row.end then cursor else row.end) - row.start);
      WidthMonotone(cw, row.text, |shown|, |row.text|);
      assert row.text[..|row.text|] == row.text && row.text[..|shown|] == shown;
    }
  }

  // ---- the whole layout ----

  function AtLeastOne(n: nat): nat
  {
    if n == 0 then 1 else n
  }

  lemma RowsCover(cw: char -> nat, text: string, cursor: nat, limit: nat)
    ensures Reads(LayoutRows(cw, text, cursor, limit), 0, text)
  {
    LayoutRoundTrip(cw, text, cursor, limit);
  }

  function CursorRow(rows: seq<InputRow>, cursor: nat): (r: nat)
    ensures rows != [] ==> r < |rows|
  {
    var found := FindRow(rows, cursor, 0);
    if found < |rows| || rows == [] then found else |rows| - 1
  }

  function LayoutOf(cw: char -> nat, text: string, cursor: nat, width: nat): Layout
  {
    var rows := LayoutRows(cw, text, cursor, AtLeastOne(width));
    RowsCover(cw, text, cursor, AtLeastOne(width));
    var r := CursorRow(rows, cursor);
    ChainAt(rows, 0, ByteLen(text), r);
    Layout(rows, r, CursorCol(cw, rows[r], cursor))
  }

  // The search never falls back, the row it finds contains the cursor, and the
  // column is the width of the text from the row's start to the cursor.
  lemma CursorIsPlaced(cw: char -> nat, text: string, cursor: nat, width: nat)
    requires cursor <= |Encode(text)| && IsCharBoundary(Encode(text), cursor)
    ensures
      var l := LayoutOf(cw, text, cursor, width);
      && l.cursorRow == FindRow(l.rows, cursor, 0) < |l.rows|
      && var row := l.rows[l.cursorRow];
         && row.start <= cursor <= row.end <= |Encode(text)|
         && Encode(Within(row.text, cursor - row.start)) == Encode(text)[row.start..cursor]
         && l.cursorCol == DisplayWidth(cw, Within(row.text, cursor - row.start))
  {
    var l, end := LayoutOf(cw, text, cursor, width), ByteLen(text);
    RowsCover(cw, text, cursor, AtLeastOne(width));
    ByteLenIsEncodedLength(text);
    CursorRowContainsCursor(l.rows, end, cursor);
    ChainAt(l.rows, 0, end, l.cursorRow);
    ColumnMeasuresText(l.rows, end, l.cursorRow, cursor);
    ColumnWithinRow(cw, l.rows[l.cursorRow], cursor);
  }

  predicate RowsInWidth(cw: char -> nat, rows: seq<InputRow>, limit: nat)
  {
    forall i | 0 <= i < |rows| :: DisplayWidth(cw, rows[i].text) <= limit
  }

  lemma {:induction false} PlaceFits(cw: char -> nat, texts: seq<string>, first: bool, start: nat, limit: nat)
    requires RowsFit(cw, texts, limit)
    ensures RowsInWidth(cw, Place(texts, first, start), limit)
    decreases |texts|
  {
    if texts != [] {
      PlaceFits(cw, texts[1..], false, start + ByteLen(texts[0]), limit);
    }
  }

  lemma {:induction false} LinesFit(cw: char -> nat, lines: seq<string>, limit: nat, first: bool, start: nat)
    requires forall line <- lines :: CharsFit(cw, line, limit)
    ensures RowsInWidth(cw, RowsOfLines(cw, lines, limit, first, start), limit)
    decreases |lines|
  {
    if lines != [] {
      if lines[0] != [] {
        WrapFits(cw, lines[0], limit);
        PlaceFits(cw, Wrap(cw, lines[0], limit), first, start, limit);
      }
      LinesFit(cw, lines[1..], limit, false, start + ByteLen(lines[0]) + 1);
    }
  }

  lemma {:induction false} SplitFits(cw: char -> nat, text: string, limit: nat)
    requires CharsFit(cw, text, limit)
    ensures forall line <- SplitLines(text) :: CharsFit(cw, line, limit)
    decreases |text|
  {
    match Find(text, '\n')
    case None =>
    case Some(i) => SplitFits(cw, text[i + 1..], limit);
  }

  lemma LayoutFits(cw: char -> nat, text: string, cursor: nat, limit: nat)
    requires CharsFit(cw, text, limit)
    ensures RowsInWidth(cw, LayoutRows(cw, text, cursor, limit), limit)
  {
    SplitFits(cw, text, limit);
    LinesFit(cw, SplitLines(text), limit, true, 0);
  }

  // A cursor at the end of the text is on the last row.
  lemma EndIsOnLastRow(rows: seq<InputRow>, end: nat)
    requires Chain(rows, 0, end)
    ensures FindRow(rows, end, 0) == |rows| - 1
  {
    CursorRowContainsCursor(rows, end, end);
    var r := FindRow(rows, end, 0);
    ChainAt(rows, 0, end, r);
    if r + 1 < |rows| {
      ChainAt(rows, 0, end, r + 1);
    }
  }

  // The cursor never lies beyond the width; at the end of the text it is
  // strictly inside, so it can always be drawn.
  lemma CursorFits(cw: char -> nat, text: string, cursor: nat, width: nat)
    requires CharsFit(cw, text, AtLeastOne(width))
    ensures
      var l := LayoutOf(cw, text, cursor, width);
      && l.cursorCol <= AtLeastOne(width)
      && (cursor == |Encode(text)| ==> l.cursorCol < AtLeastOne(width))
  {
    var limit := AtLeastOne(width);
    var l := LayoutOf(cw, text, cursor, width);
    var row := l.rows[l.cursorRow];
    RowsCover(cw, text, cursor, limit);
    ChainAt(l.rows, 0, ByteLen(text), l.cursorRow);
    LayoutFits(cw, text, cursor, limit);
    ColumnWithinRow(cw, row, cursor);
    ByteLenIsEncodedLength(text);
    if cursor == |Encode(text)| {
      EndIsOnLastRow(l.rows, cursor);
      LastRowLeavesRoom(cw, text, cursor, limit);
    }
  }

  lemma LastRowLeavesRoom(cw: char -> nat, text: string, cursor: nat, limit: nat)
    requires limit > 0 && cursor == ByteLen(text)
    ensures
      var rows := LayoutRows(cw, text, cursor, limit);
      rows != [] && DisplayWidth(cw, rows[|rows| - 1].text) < limit
  {
    var lines := SplitLines(text);
    var rows := RowsOfLines(cw, lines, limit, true, 0);
    SplitJoin(text);
    LinesChain(cw, lines, limit, true, 0);
    var last := rows[|rows| - 1];
    ChainAt(rows, 0, ByteLen(text), |rows| - 1);
    assert last.start == last.end ==> last.text == [];
  }

  // ---- the visible window ----

  function VisibleStart(cursorRow: nat, rows: nat): nat
  {
    if cursorRow + 1 <= AtLeastOne(rows) then 0 else cursorRow + 1 - AtLeastOne(rows)
  }

  predicate Shows(start: nat, rows: nat, row: nat)
  {
    start <= row < start + AtLeastOne(rows)
  }

  // The window contains the cursor row, and no window that starts earlier does.
  lemma WindowContainsCursor(cursorRow: nat, rows: nat)
    ensures Shows(VisibleStart(cursorRow, rows), rows, cursorRow)
    ensures forall other: nat :: other < VisibleStart(cursorRow, rows) ==> !Shows(other, rows, cursorRow)
  {
  }

  // ---- the loops ----

  // Appends the rows of one line.
  method PushWrappedInputRows(cw: char -> nat, built: seq<InputRow>, first: bool, lineStart: nat, line: string, limit: nat)
    returns (rows: seq<InputRow>)
    ensures rows == built + RowsOfLine(cw, line, limit, first, lineStart)
  {
    if line == [] {
      return built + [InputRow(first, [], lineStart, lineStart)];
    }
    ghost var goal := built + RowsOfLine(cw, line, limit, first, lineStart);
    ScanStarts(cw, line, limit, built, first, lineStart);
    rows := ScanLine(cw, built, first, lineStart, line, limit, goal);
  }

  // Scans the characters of a line once, pushing a row wherever one is full.
  method ScanLine(cw: char -> nat, built: seq<InputRow>, first: bool, lineStart: nat, line: string, limit: nat,
                  ghost goal: seq<InputRow>)
    returns (rows: seq<InputRow>)
    requires line != [] && Underway(cw, line, limit, built, 0, 0, 0, 0, 0, first, lineStart, goal)
    ensures rows == goal
  {
    rows := built;
    var rowStart: nat, startByte: nat, idx: nat, rowWidth: nat, marker := 0, 0, 0, 0, first;
    for k := 0 to |line|
      invariant k > 0 ==> rowStart < k
      invariant Underway(cw, line, limit, rows, rowStart, k, rowWidth, startByte, idx, marker, lineStart, goal)
    {
      var ch := line[k];
      var next := idx + Width(ch);
      if rowWidth > 0 && rowWidth + cw(ch) > limit {
        RowBreaks(cw, line, limit, rows, rowStart, k, rowWidth, startByte, idx, marker, lineStart, goal);
        rows := rows + [InputRow(marker, line[rowStart..k], lineStart + startByte, lineStart + idx)];
        rowStart, startByte, rowWidth, marker := k, idx, 0, false;
      }
      Continues(cw, line, limit, rows, rowStart, k, rowWidth, startByte, idx, marker, lineStart, goal);
      rowWidth := rowWidth + cw(ch);
      idx := next;
    }
    LastRow(cw, line, limit, rows, rowStart, rowWidth, startByte, idx, marker, lineStart, goal);
    rows := rows + [InputRow(marker, line[rowStart..], lineStart + startByte, lineStart + idx)];
  }

  // The scan has taken the characters from `from` to `k` into one row.
  predicate Scanned(cw: char -> nat, line: string, limit: nat, from: nat, k: nat, width: nat, bytes: nat)
    requires from <= k <= |line|
  {
    && width == DisplayWidth(cw, line[from..k]) && bytes == ByteLen(line[from..k])
    && RowEnd(cw, line[from..], limit, k - from, width) == FirstRow(cw, line[from..], limit)
  }

  // The rows pushed so far and the ones still due from `from` on.
  function Pending(cw: char -> nat, line: string, limit: nat, rows: seq<InputRow>, from: nat, first: bool, start: nat): seq<InputRow>
    requires from <= |line|
  {
    rows + Place(Wrap(cw, line[from..], limit), first, start)
  }

  lemma Extend(line: string, from: nat, k: nat, cw: char -> nat)
    requires from <= k < |line|
    ensures DisplayWidth(cw, line[from..k + 1]) == DisplayWidth(cw, line[from..k]) + cw(line[k])
  {
    var s := line[from..];
    WidthTake(cw, s, k - from);
    assert s[..k - from] == line[from..k] && s[..k - from + 1] == line[from..k + 1];
  }

  // The scan stands before character `k`; with the rows still due it reaches `goal`.
  predicate Underway(cw: char -> nat, line: string, limit: nat, rows: seq<InputRow>, from: nat, k: nat, width: nat,
                     startByte: nat, idx: nat, marker: bool, lineStart: nat, goal: seq<InputRow>)
  {
    && from <= k <= |line| && startByte <= idx
    && Scanned(cw, line, limit, from, k, width, idx - startByte)
    && Pending(cw, line, limit, rows, from, marker, lineStart + startByte) == goal
  }

  lemma Continues(cw: char -> nat, line: string, limit: nat, rows: seq<InputRow>, from: nat, k: nat, width: nat,
                  startByte: nat, idx: nat, marker: bool, lineStart: nat, goal: seq<InputRow>)
    requires k < |line| && !(width > 0 && width + cw(line[k]) > limit)
    requires Underway(cw, line, limit, rows, from, k, width, startByte, idx, marker, lineStart, goal)
    ensures Underway(cw, line, limit, rows, from, k + 1, width + cw(line[k]), startByte, idx + Width(line[k]), marker, lineStart, goal)
  {
    Extend(line, from, k, cw);
    Extend(line, from, k, Width);
    assert line[from..][k - from] == line[k];
  }

  // Where the greedy row ends it is pushed, and a fresh scan starts.
  lemma RowBreaks(cw: char -> nat, line: string, limit: nat, rows: seq<InputRow>, from: nat, k: nat, width: nat,
                  startByte: nat, idx: nat, marker: bool, lineStart: nat, goal: seq<InputRow>)
    requires from < k <= |line|
    requires k == |line| || (width > 0 && width + cw(line[k]) > limit)
    requires Underway(cw, line, limit, rows, from, k, width, startByte, idx, marker, lineStart, goal)
    ensures Underway(cw, line, limit, rows + [InputRow(marker, line[from..k], lineStart + startByte, lineStart + idx)],
                     k, k, 0, idx, idx, false, lineStart, goal)
  {
    var rest, n, start := line[from..], k - from, lineStart + startByte;
    assert k < |line| ==> rest[n] == line[k];
    assert rest[..n] == line[from..k] && rest[n..] == line[k..];
    PlaceFirst(rest[..n], Wrap(cw, rest[n..], limit), marker, start);
    Snoc(rows, InputRow(marker, line[from..k], start, lineStart + idx), Place(Wrap(cw, line[k..], limit), false, lineStart + idx));
    assert line[k..k] == [];
  }

  lemma Snoc(rows: seq<InputRow>, row: InputRow, more: seq<InputRow>)
    ensures rows + ([row] + more) == rows + [row] + more
  {
  }

  lemma ScanStarts(cw: char -> nat, line: string, limit: nat, built: seq<InputRow>, first: bool, lineStart: nat)
    requires line != []
    ensures Underway(cw, line, limit, built, 0, 0, 0, 0, 0, first, lineStart, built + RowsOfLine(cw, line, limit, first, lineStart))
  {
    assert line[0..] == line && line[0..0] == [];
  }

  lemma LastRow(cw: char -> nat, line: string, limit: nat, rows: seq<InputRow>, from: nat, width: nat,
                startByte: nat, idx: nat, marker: bool, lineStart: nat, goal: seq<InputRow>)
    requires from < |line|
    requires Underway(cw, line, limit, rows, from, |line|, width, startByte, idx, marker, lineStart, goal)
    ensures rows + [InputRow(marker, line[from..], lineStart + startByte, lineStart + idx)] == goal
  {
    RowBreaks(cw, line, limit, rows, from, |line|, width, startByte, idx, marker, lineStart, goal);
    assert line[|line|..] == [] && line[from..|line|] == line[from..];
    var all := rows + [InputRow(marker, line[from..], lineStart + startByte, lineStart + idx)];
    assert all + [] == all;
  }

  lemma PlaceFirst(head: string, more: seq<string>, first: bool, start: nat)
    ensures
      var end := start + ByteLen(head);
      Place([head] + more, first, start) == [InputRow(first, head, start, end)] + Place(more, false, end)
  {
    assert ([head] + more)[1..] == more;
  }


  // With the rows of the lines still to come the layout reaches `goal`.
  predicate LinesDue(cw: char -> nat, lines: seq<string>, limit: nat, first: bool, start: nat, rows: seq<InputRow>, goal: seq<InputRow>)
  {
    rows + RowsOfLines(cw, lines, limit, first, start) == goal
  }

  lemma LineDone(cw: char -> nat, lines: seq<string>, limit: nat, first: bool, start: nat, rows: seq<InputRow>, goal: seq<InputRow>)
    requires lines != [] && LinesDue(cw, lines, limit, first, start, rows, goal)
    ensures LinesDue(cw, lines[1..], limit, false, start + ByteLen(lines[0]) + 1, rows + RowsOfLine(cw, lines[0], limit, first, start), goal)
  {
    Associative(rows, RowsOfLine(cw, lines[0], limit, first, start),
                RowsOfLines(cw, lines[1..], limit, false, start + ByteLen(lines[0]) + 1));
  }

  method RowsOfText(cw: char -> nat, text: string, limit: nat) returns (rows: seq<InputRow>)
    ensures rows == RowsOfLines(cw, SplitLines(text), limit, true, 0)
  {
    rows := [];
    var lines := SplitLines(text);
    var lineStart: nat := 0;
    ghost var goal := RowsOfLines(cw, lines, limit, true, 0);
    assert lines[0..] == lines && [] + goal == goal;
    for n := 0 to |lines|
      invariant LinesDue(cw, lines[n..], limit, n == 0, lineStart, rows, goal)
    {
      LineDone(cw, lines[n..], limit, n == 0, lineStart, rows, goal);
      assert lines[n..][1..] == lines[n + 1..];
      rows := PushWrappedInputRows(cw, rows, n == 0, lineStart, lines[n], limit);
      lineStart := lineStart + ByteLen(lines[n]) + 1;
    }
    assert rows + [] == rows;
  }

  method WrappedInputLayout(cw: char -> nat, text: string, cursor: nat, width: nat) returns (l: Layout)
    ensures l == LayoutOf(cw, text, cursor, width)
  {
    var limit := AtLeastOne(width);
    var rows := RowsOfText(cw, text, limit);
    if NeedsCursorRow(cw, rows, text, cursor, limit) {
      rows := rows + [InputRow(false, [], cursor, cursor)];
    }
    assert rows == LayoutRows(cw, text, cursor, limit);
    RowsCover(cw, text, cursor, limit);
    var r := 0;
    while r < |rows| && !HoldsCursor(rows, r, cursor)
      invariant r <= |rows| && FindRow(rows, cursor, 0) == FindRow(rows, cursor, r)
    {
      r := r + 1;
    }
    if r == |rows| {
      r := |rows| - 1;
    }
    ChainAt(rows, 0, ByteLen(text), r);
    l := Layout(rows, r, CursorCol(cw, rows[r], cursor));
  }
}
