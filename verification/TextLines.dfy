// `str::lines` and `str::split_once`.
module TextLines {
  import opened Prelude

  // A line ending is "\n" or "\r\n"; the ending of the last line is optional.
  function StripCr(line: string): (r: string)
    ensures r <= line
  {
    if line != [] && line[|line| - 1] == '\r' then line[..|line| - 1] else line
  }

  function Lines(s: string): (lines: seq<string>)
    ensures forall line <- lines :: '\n' !in line
    decreases |s|
  {
    if s == [] then []
    else
      match Find(s, '\n')
      case None => [s]
      case Some(i) => [StripCr(s[..i])] + Lines(s[i + 1..])
  }

  lemma LinesCons(line: string, rest: string)
    requires '\n' !in line
    ensures Lines(line + ['\n'] + rest) == [StripCr(line)] + Lines(rest)
  {
    var s := line + ['\n'] + rest;
    FindSplit(line, '\n', rest);
    assert s[..|line|] == line && s[|line| + 1..] == rest;
  }

  // Both line endings end a line and belong to none; a lone carriage return stays.
  lemma BothEndingsEndALine(line: string, rest: string)
    requires '\n' !in line && (line != [] ==> line[|line| - 1] != '\r')
    ensures Lines(line + ['\n'] + rest) == [line] + Lines(rest)
    ensures Lines(line + ['\r'] + ['\n'] + rest) == [line] + Lines(rest)
    ensures line != [] ==> Lines(line + ['\r']) == [line + ['\r']]
  {
    LinesCons(line, rest);
    LinesCons(line + ['\r'], rest);
    assert (line + ['\r'])[..|line|] == line;
  }

  lemma LinesOne(line: string)
    requires '\n' !in line && line != []
    ensures Lines(line) == [line]
  {
  }

  function SplitOnce(s: string, c: char): (r: Option<(string, string)>)
    ensures r.Some? <==> c in s
    ensures r.Some? ==> s == r.value.0 + [c] + r.value.1 && c !in r.value.0
  {
    match Find(s, c)
    case None => None
    case Some(i) => Some((s[..i], s[i + 1..]))
  }

  lemma SplitOnceAt(a: string, c: char, b: string)
    requires c !in a
    ensures SplitOnce(a + [c] + b, c) == Some((a, b))
  {
    FindSplit(a, c, b);
    var s := a + [c] + b;
    assert s[..|a|] == a && s[|a| + 1..] == b;
  }

  function JoinLines(lines: seq<string>): string
  {
    if lines == [] then []
    else if |lines| == 1 then lines[0]
    else lines[0] + (['\n'] + JoinLines(lines[1..]))
  }

  // Lines that hold no newline and do not end in a carriage return, the last one
  // not empty, are read back from their join.
  lemma {:induction false} LinesOfJoin(lines: seq<string>)
    requires forall line <- lines :: '\n' !in line && StripCr(line) == line
    requires lines != [] ==> lines[|lines| - 1] != []
    ensures Lines(JoinLines(lines)) == lines
    decreases |lines|
  {
    if |lines| == 1 {
      LinesOne(lines[0]);
    } else if lines != [] {
      LinesOfJoin(lines[1..]);
      JoinSplits(lines);
      LinesCons(lines[0], JoinLines(lines[1..]));
    }
  }

  lemma JoinSplits(lines: seq<string>)
    requires |lines| > 1
    ensures JoinLines(lines) == lines[0] + ['\n'] + JoinLines(lines[1..])
  {
    Associative(lines[0], ['\n'], JoinLines(lines[1..]));
  }
}
