// Greedy soft wrapping of one line, with an additive width per character.
module Wrapping {
  import opened Prelude

  function DisplayWidth(cw: char -> nat, s: string): nat
  {
    if s == [] then 0 else cw(s[0]) + DisplayWidth(cw, s[1..])
  }

  // Where the row that starts at the beginning of `line` ends, having taken `k`
  // characters of total width `acc`: it stops before the first character that
  // would overflow a row which already shows something.
  function RowEnd(cw: char -> nat, line: string, limit: nat, k: nat, acc: nat): (r: nat)
    requires k <= |line|
    ensures k <= r <= |line|
    decreases |line| - k
  {
    if k == |line| || (acc > 0 && acc + cw(line[k]) > limit) then k
    else RowEnd(cw, line, limit, k + 1, acc + cw(line[k]))
  }

  function FirstRow(cw: char -> nat, line: string, limit: nat): (r: nat)
    ensures r <= |line| && (line != [] ==> r > 0)
  {
    RowEnd(cw, line, limit, 0, 0)
  }

  // The rows of a line; none for the empty line.
  function Wrap(cw: char -> nat, line: string, limit: nat): seq<string>
    decreases |line|
  {
    if line == [] then []
    else
      var n := FirstRow(cw, line, limit);
      [line[..n]] + Wrap(cw, line[n..], limit)
  }

  predicate CharsFit(cw: char -> nat, line: string, limit: nat)
  {
    forall i | 0 <= i < |line| :: cw(line[i]) <= limit
  }

  predicate RowsFit(cw: char -> nat, rows: seq<string>, limit: nat)
  {
    forall i | 0 <= i < |rows| :: DisplayWidth(cw, rows[i]) <= limit
  }

  lemma {:induction false} WidthConcat(cw: char -> nat, a: string, b: string)
    ensures DisplayWidth(cw, a + b) == DisplayWidth(cw, a) + DisplayWidth(cw, b)
  {
    if a == [] {
      assert a + b == b;
    } else {
      WidthConcat(cw, a[1..], b);
      assert (a + b)[1..] == a[1..] + b;
    }
  }

  lemma WidthTake(cw: char -> nat, s: string, k: nat)
    requires k < |s|
    ensures DisplayWidth(cw, s[..k + 1]) == DisplayWidth(cw, s[..k]) + cw(s[k])
  {
    assert s[..k + 1] == s[..k] + [s[k]];
    WidthConcat(cw, s[..k], [s[k]]);
    assert [s[k]][1..] == [];
    assert DisplayWidth(cw, [s[k]]) == cw(s[k]) + DisplayWidth(cw, []);
  }

  lemma WidthMonotone(cw: char -> nat, s: string, j: nat, k: nat)
    requires j <= k <= |s|
    ensures DisplayWidth(cw, s[..j]) <= DisplayWidth(cw, s[..k]) && DisplayWidth(cw, s[j..k]) <= DisplayWidth(cw, s[..k])
  {
    assert s[..k] == s[..j] + s[j..k];
    WidthConcat(cw, s[..j], s[j..k]);
  }

  // A row never runs over, and stops only because the next character would.
  lemma {:induction false} RowEndIsTight(cw: char -> nat, line: string, limit: nat, k: nat, acc: nat)
    requires k <= |line| && acc == DisplayWidth(cw, line[..k])
    ensures
      var r := RowEnd(cw, line, limit, k, acc);
      && (r < |line| ==> DisplayWidth(cw, line[..r]) > 0 && DisplayWidth(cw, line[..r]) + cw(line[r]) > limit)
      && (acc <= limit && CharsFit(cw, line, limit) ==> DisplayWidth(cw, line[..r]) <= limit)
    decreases |line| - k
  {
    if k < |line| && !(acc > 0 && acc + cw(line[k]) > limit) {
      WidthTake(cw, line, k);
      RowEndIsTight(cw, line, limit, k + 1, acc + cw(line[k]));
    }
  }

  lemma FirstRowIsTight(cw: char -> nat, line: string, limit: nat)
    ensures
      var r := FirstRow(cw, line, limit);
      && (r < |line| ==> DisplayWidth(cw, line[..r]) + cw(line[r]) > limit)
      && (CharsFit(cw, line, limit) ==> DisplayWidth(cw, line[..r]) <= limit)
  {
    RowEndIsTight(cw, line, limit, 0, 0);
  }

  // Any prefix that fits is no longer than the first row.
  lemma FirstRowIsLongest(cw: char -> nat, line: string, limit: nat, m: nat)
    requires m <= |line| && DisplayWidth(cw, line[..m]) <= limit
    ensures m <= FirstRow(cw, line, limit)
  {
    var r := FirstRow(cw, line, limit);
    FirstRowIsTight(cw, line, limit);
    if r < m {
      WidthTake(cw, line, r);
      WidthMonotone(cw, line, r + 1, m);
    }
  }

  // The rows are the line, cut into non-empty pieces.
  lemma {:induction false} WrapCovers(cw: char -> nat, line: string, limit: nat)
    ensures Concat(Wrap(cw, line, limit)) == line
    ensures forall i | 0 <= i < |Wrap(cw, line, limit)| :: Wrap(cw, line, limit)[i] != []
    decreases |line|
  {
    if line != [] {
      var n := FirstRow(cw, line, limit);
      WrapCovers(cw, line[n..], limit);
      assert line == line[..n] + line[n..];
    }
  }

  // Each row fits.
  lemma {:induction false} WrapFits(cw: char -> nat, line: string, limit: nat)
    requires CharsFit(cw, line, limit)
    ensures RowsFit(cw, Wrap(cw, line, limit), limit)
    decreases |line|
  {
    if line != [] {
      FirstRowIsTight(cw, line, limit);
      WrapFits(cw, line[FirstRow(cw, line, limit)..], limit);
    }
  }

  // No row could take the next row's first character.
  lemma {:induction false} WrapIsMaximal(cw: char -> nat, line: string, limit: nat, i: nat)
    requires i + 1 < |Wrap(cw, line, limit)|
    ensures
      var rows := Wrap(cw, line, limit);
      rows[i + 1] != [] && DisplayWidth(cw, rows[i]) + cw(rows[i + 1][0]) > limit
    decreases |line|
  {
    var n := FirstRow(cw, line, limit);
    var rest := line[n..];
    if i == 0 {
      FirstRowIsTight(cw, line, limit);
      assert Wrap(cw, rest, limit)[0] == rest[..FirstRow(cw, rest, limit)];
      assert rest[0] == line[n];
    } else {
      WrapIsMaximal(cw, rest, limit, i - 1);
    }
  }

  lemma {:induction false} RowEndOverfull(cw: char -> nat, line: string, limit: nat, k: nat, acc: nat)
    requires k <= |line| && acc == DisplayWidth(cw, line[..k]) && acc <= limit
    ensures
      var r := RowEnd(cw, line, limit, k, acc);
      DisplayWidth(cw, line[..r]) > limit ==> r > 0 && DisplayWidth(cw, line[..r - 1]) == 0
    decreases |line| - k
  {
    if k < |line| && !(acc > 0 && acc + cw(line[k]) > limit) {
      WidthTake(cw, line, k);
      if acc + cw(line[k]) <= limit {
        RowEndOverfull(cw, line, limit, k + 1, acc + cw(line[k]));
      } else {
        assert RowEnd(cw, line, limit, k + 1, acc + cw(line[k])) == k + 1;
      }
    }
  }

  // A row that does not fit holds one character too wide for any row, after
  // characters of no width; and no row but the last is without width.
  lemma {:induction false} OnlyWideCharsOverflow(cw: char -> nat, line: string, limit: nat, i: nat)
    requires i < |Wrap(cw, line, limit)|
    ensures
      var rows := Wrap(cw, line, limit);
      && (DisplayWidth(cw, rows[i]) > limit ==> rows[i] != [] && DisplayWidth(cw, rows[i][..|rows[i]| - 1]) == 0)
      && (i + 1 < |rows| ==> DisplayWidth(cw, rows[i]) > 0)
    decreases |line|
  {
    var n := FirstRow(cw, line, limit);
    if i == 0 {
      assert line[..0] == [];
      RowEndOverfull(cw, line, limit, 0, 0);
      RowEndIsTight(cw, line, limit, 0, 0);
      assert line[..n][..n - 1] == line[..n - 1];
    } else {
      OnlyWideCharsOverflow(cw, line[n..], limit, i - 1);
    }
  }

  // Dropping characters from the front never costs a row.
  lemma {:induction false} WrapOfSuffix(cw: char -> nat, line: string, limit: nat, k: nat)
    requires k <= |line| && CharsFit(cw, line, limit)
    ensures |Wrap(cw, line[k..], limit)| <= |Wrap(cw, line, limit)|
    decreases |line|
  {
    if k < |line| {
      var n := FirstRow(cw, line, limit);
      if n <= k {
        WrapOfSuffix(cw, line[n..], limit, k - n);
        assert line[n..][k - n..] == line[k..];
      } else {
        var m := FirstRow(cw, line[k..], limit);
        SuffixReaches(cw, line, limit, k);
        WrapOfSuffix(cw, line[n..], limit, k + m - n);
        assert line[n..][k + m - n..] == line[k..][m..];
      }
    }
  }

  // The first row of a suffix that starts in the first row reaches as far as that.
  lemma SuffixReaches(cw: char -> nat, line: string, limit: nat, k: nat)
    requires CharsFit(cw, line, limit) && k < |line| && k < FirstRow(cw, line, limit)
    ensures FirstRow(cw, line, limit) <= k + FirstRow(cw, line[k..], limit)
  {
    var n := FirstRow(cw, line, limit);
    FirstRowIsTight(cw, line, limit);
    WidthMonotone(cw, line, k, n);
    assert line[k..][..n - k] == line[k..n];
    FirstRowIsLongest(cw, line[k..], limit, n - k);
  }

  // No contiguous split of the line into rows that fit has fewer rows.
  lemma {:induction false} WrapIsOptimal(cw: char -> nat, line: string, limit: nat, rows: seq<string>)
    requires CharsFit(cw, line, limit) && Concat(rows) == line && RowsFit(cw, rows, limit)
    ensures |Wrap(cw, line, limit)| <= |rows|
    decreases |rows|
  {
    if line != [] {
      var m := |rows[0]|;
      assert line[..m] == rows[0] && line[m..] == Concat(rows[1..]);
      WrapIsOptimal(cw, line[m..], limit, rows[1..]);
      OneRowMore(cw, line, limit, m);
    }
  }

  // A first row that fits, and what wrapping makes of the rest.
  lemma OneRowMore(cw: char -> nat, line: string, limit: nat, m: nat)
    requires line != [] && CharsFit(cw, line, limit) && m <= |line| && DisplayWidth(cw, line[..m]) <= limit
    ensures |Wrap(cw, line, limit)| <= 1 + |Wrap(cw, line[m..], limit)|
  {
    var n := FirstRow(cw, line, limit);
    FirstRowIsLongest(cw, line, limit, m);
    WrapOfSuffix(cw, line[m..], limit, n - m);
    assert line[m..][n - m..] == line[n..];
  }
}
