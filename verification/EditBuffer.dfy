// The composer's edit buffer: UTF-8 bytes with a byte cursor, and the same
// operations on characters that it refines.
module EditBuffer {
  import opened Utf8

  const NEWLINE: Byte := 0x0A

  datatype Buffer = Buffer(bytes: seq<Byte>, cursor: nat)

  // The reference editor works on characters and character positions.
  datatype Text = Text(chars: string, pos: nat)

  // Byte offset of a character position.
  function Offset(s: string, k: nat): nat
    requires k <= |s|
  {
    |Encode(s[..k])|
  }

  predicate Represents(b: Buffer, t: Text)
  {
    && b.bytes == Encode(t.chars)
    && t.pos <= |t.chars|
    && b.cursor == Offset(t.chars, t.pos)
  }

  // Valid UTF-8 with the cursor on a character boundary inside it.
  predicate Sound(b: Buffer)
  {
    Valid(b.bytes) && b.cursor <= |b.bytes| && IsCharBoundary(b.bytes, b.cursor)
  }

  predicate IsWordChar(alphanumeric: char -> bool, c: char)
  {
    alphanumeric(c) || c == '_'
  }

  // ---- boundary functions on bytes ----

  function PrevCharBoundary(b: seq<Byte>, pos: nat): (r: nat)
    requires pos <= |b|
    ensures r <= pos && (pos > 0 ==> r < pos)
  {
    if pos == 0 then 0 else LastBoundary(b, pos - 1)
  }

  function NextCharBoundary(b: seq<Byte>, pos: nat): nat
  {
    if pos >= |b| then |b| else pos + LeadWidth(b[pos])
  }

  function LineStart(b: seq<Byte>, pos: nat): (r: nat)
    requires pos <= |b|
    ensures r <= pos
  {
    if pos == 0 || b[pos - 1] == NEWLINE then pos else LineStart(b, pos - 1)
  }

  function LineEnd(b: seq<Byte>, pos: nat): (r: nat)
    requires pos <= |b|
    ensures pos <= r <= |b|
    decreases |b| - pos
  {
    if pos == |b| || b[pos] == NEWLINE then pos else LineEnd(b, pos + 1)
  }

  // `text[from..to].chars().next().unwrap_or(' ')`.
  function CharAt(b: seq<Byte>, from: nat, to: nat): char
    requires from <= to <= |b|
  {
    match FirstChar(b[from..to])
    case Some(c) => c
    case None => ' '
  }

  // Steps left over characters whose word-ness is `word`.
  function SkipLeft(alphanumeric: char -> bool, b: seq<Byte>, pos: nat, word: bool): (r: nat)
    requires pos <= |b|
    ensures r <= pos
  {
    if pos == 0 then 0
    else
      var prev := PrevCharBoundary(b, pos);
      if IsWordChar(alphanumeric, CharAt(b, prev, pos)) != word then pos
      else SkipLeft(alphanumeric, b, prev, word)
  }

  // Steps right likewise. Outside valid text a lead byte may announce too much.
  function SkipRight(alphanumeric: char -> bool, b: seq<Byte>, pos: nat, word: bool): nat
    decreases |b| - pos
  {
    if pos >= |b| || NextCharBoundary(b, pos) > |b| then pos
    else
      var next := NextCharBoundary(b, pos);
      if IsWordChar(alphanumeric, CharAt(b, pos, next)) != word then pos
      else SkipRight(alphanumeric, b, next, word)
  }

  function PreviousWordBoundary(alphanumeric: char -> bool, b: seq<Byte>, pos: nat): (r: nat)
    requires pos <= |b|
    ensures r <= pos
  {
    SkipLeft(alphanumeric, b, SkipLeft(alphanumeric, b, pos, false), true)
  }

  function NextWordBoundary(alphanumeric: char -> bool, b: seq<Byte>, pos: nat): nat
  {
    SkipRight(alphanumeric, b, SkipRight(alphanumeric, b, pos, false), true)
  }

  // ---- the same notions on characters ----

  function CharsLineStart(s: string, k: nat): (r: nat)
    requires k <= |s|
    ensures r <= k
  {
    if k == 0 || s[k - 1] == '\n' then k else CharsLineStart(s, k - 1)
  }

  function CharsLineEnd(s: string, k: nat): (r: nat)
    requires k <= |s|
    ensures k <= r <= |s|
    decreases |s| - k
  {
    if k == |s| || s[k] == '\n' then k else CharsLineEnd(s, k + 1)
  }

  function CharsLeft(alphanumeric: char -> bool, s: string, k: nat, word: bool): (r: nat)
    requires k <= |s|
    ensures r <= k
  {
    if k == 0 || IsWordChar(alphanumeric, s[k - 1]) != word then k
    else CharsLeft(alphanumeric, s, k - 1, word)
  }

  function CharsRight(alphanumeric: char -> bool, s: string, k: nat, word: bool): (r: nat)
    requires k <= |s|
    ensures k <= r <= |s|
    decreases |s| - k
  {
    if k == |s| || IsWordChar(alphanumeric, s[k]) != word then k
    else CharsRight(alphanumeric, s, k + 1, word)
  }

  // ---- the byte functions refine the character functions ----

  // The bytes around the character at position `k`.
  lemma OffsetStep(s: string, k: nat)
    requires k < |s|
    ensures
      var b, o := Encode(s), Offset(s, k);
      && Offset(s, k + 1) == o + Width(s[k]) <= |b|
      && b[o..o + Width(s[k])] == EncodeChar(s[k])
  {
    assert s[..k + 1] == s[..k] + [s[k]];
    EncodeConcat(s[..k], [s[k]]);
    EncodeOne(s[k]);
    assert s == s[..k + 1] + s[k + 1..];
    EncodeConcat(s[..k + 1], s[k + 1..]);
  }

  lemma OffsetBound(s: string, k: nat)
    requires k <= |s|
    ensures Offset(s, k) <= |Encode(s)| && IsCharBoundary(Encode(s), Offset(s, k))
    ensures k == |s| ==> Offset(s, k) == |Encode(s)|
    ensures Offset(s, 0) == 0
    ensures k < |s| ==> Offset(s, k) < |Encode(s)|
    ensures k > 0 ==> Offset(s, k) > 0
  {
    assert s[..|s|] == s;
    if k < |s| {
      OffsetStep(s, k);
      EncodedShape(s[k]);
      assert Encode(s)[Offset(s, k)] == EncodeChar(s[k])[0];
    }
    if k > 0 {
      OffsetStep(s, k - 1);
    }
  }

  lemma InteriorIsNoBoundary(s: string, k: nat, j: nat)
    requires k < |s| && Offset(s, k) < j < Offset(s, k) + Width(s[k])
    ensures Offset(s, k) + Width(s[k]) <= |Encode(s)| && !IsCharBoundary(Encode(s), j)
  {
    OffsetStep(s, k);
    EncodedShape(s[k]);
    var o := Offset(s, k);
    assert Encode(s)[j] == Encode(s)[o..o + Width(s[k])][j - o];
  }

  lemma PrevRefines(s: string, k: nat)
    requires k <= |s|
    ensures Offset(s, k) <= |Encode(s)|
    ensures PrevCharBoundary(Encode(s), Offset(s, k)) == Offset(s, if k == 0 then 0 else k - 1)
  {
    OffsetBound(s, k);
    if k > 0 {
      OffsetBound(s, k - 1);
      OffsetStep(s, k - 1);
      var r := LastBoundary(Encode(s), Offset(s, k) - 1);
      if r > Offset(s, k - 1) {
        InteriorIsNoBoundary(s, k - 1, r);
      }
    }
  }

  lemma NextRefines(s: string, k: nat)
    requires k <= |s|
    ensures NextCharBoundary(Encode(s), Offset(s, k)) == Offset(s, if k == |s| then k else k + 1)
  {
    OffsetBound(s, k);
    if k < |s| {
      OffsetStep(s, k);
      EncodedShape(s[k]);
      assert Encode(s)[Offset(s, k)] == EncodeChar(s[k])[0];
    }
  }

  lemma CharAtRefines(s: string, k: nat)
    requires k < |s|
    ensures Offset(s, k) <= Offset(s, k + 1) <= |Encode(s)|
    ensures CharAt(Encode(s), Offset(s, k), Offset(s, k + 1)) == s[k]
  {
    OffsetStep(s, k);
    FirstCharInverts(s[k], []);
    assert EncodeChar(s[k]) + [] == EncodeChar(s[k]);
  }

  lemma {:induction false} SkipLeftRefines(alphanumeric: char -> bool, s: string, k: nat, word: bool)
    requires k <= |s|
    ensures Offset(s, k) <= |Encode(s)|
    ensures SkipLeft(alphanumeric, Encode(s), Offset(s, k), word) == Offset(s, CharsLeft(alphanumeric, s, k, word))
  {
    OffsetBound(s, k);
    if k > 0 {
      PrevRefines(s, k);
      CharAtRefines(s, k - 1);
      SkipLeftRefines(alphanumeric, s, k - 1, word);
    }
  }

  lemma {:induction false} SkipRightRefines(alphanumeric: char -> bool, s: string, k: nat, word: bool)
    requires k <= |s|
    ensures SkipRight(alphanumeric, Encode(s), Offset(s, k), word) == Offset(s, CharsRight(alphanumeric, s, k, word))
    decreases |s| - k
  {
    OffsetBound(s, k);
    if k < |s| {
      NextRefines(s, k);
      CharAtRefines(s, k);
      SkipRightRefines(alphanumeric, s, k + 1, word);
    }
  }

  // A newline is one byte, and its byte occurs inside no other character.
  lemma NewlineByte(c: char)
    ensures c == '\n' ==> EncodeChar(c) == [NEWLINE]
    ensures c != '\n' ==> NEWLINE !in EncodeChar(c)
  {
  }

  lemma {:induction false} LineStartWithin(b: seq<Byte>, pos: nat, n: nat)
    requires n <= pos <= |b| && forall j | pos - n <= j < pos :: b[j] != NEWLINE
    ensures LineStart(b, pos) == LineStart(b, pos - n)
  {
    if n > 0 {
      LineStartWithin(b, pos - 1, n - 1);
    }
  }

  lemma {:induction false} LineEndWithin(b: seq<Byte>, pos: nat, n: nat)
    requires pos + n <= |b| && forall j | pos <= j < pos + n :: b[j] != NEWLINE
    ensures LineEnd(b, pos) == LineEnd(b, pos + n)
    decreases n
  {
    if n > 0 {
      LineEndWithin(b, pos + 1, n - 1);
    }
  }

  // A newline byte within a character's bytes means the character is a newline.
  lemma NewlineAt(s: string, k: nat)
    requires k < |s|
    ensures
      var b, o := Encode(s), Offset(s, k);
      && Offset(s, k + 1) == o + Width(s[k]) <= |b|
      && (s[k] == '\n' ==> Width(s[k]) == 1 && b[o] == NEWLINE)
      && (s[k] != '\n' ==> forall j | o <= j < o + Width(s[k]) :: b[j] != NEWLINE)
  {
    OffsetStep(s, k);
    NewlineByte(s[k]);
    var b, o, w := Encode(s), Offset(s, k), Width(s[k]);
    forall j | o <= j < o + w ensures b[j] == EncodeChar(s[k])[j - o] {
      assert b[j] == b[o..o + w][j - o];
    }
    assert s[k] != '\n' ==> forall i | 0 <= i < w :: EncodeChar(s[k])[i] in EncodeChar(s[k]);
  }

  lemma {:induction false} LineStartRefines(s: string, k: nat)
    requires k <= |s|
    ensures Offset(s, k) <= |Encode(s)|
    ensures LineStart(Encode(s), Offset(s, k)) == Offset(s, CharsLineStart(s, k))
  {
    OffsetBound(s, k);
    if k > 0 {
      NewlineAt(s, k - 1);
      if s[k - 1] != '\n' {
        LineStartWithin(Encode(s), Offset(s, k), Width(s[k - 1]));
        LineStartRefines(s, k - 1);
      }
    }
  }

  lemma {:induction false} LineEndRefines(s: string, k: nat)
    requires k <= |s|
    ensures Offset(s, k) <= |Encode(s)|
    ensures LineEnd(Encode(s), Offset(s, k)) == Offset(s, CharsLineEnd(s, k))
    decreases |s| - k
  {
    OffsetBound(s, k);
    if k < |s| {
      NewlineAt(s, k);
      if s[k] != '\n' {
        LineEndWithin(Encode(s), Offset(s, k), Width(s[k]));
        LineEndRefines(s, k + 1);
      }
    }
  }
}
