// The composer's editing operations on bytes, and the proof that they do on
// characters what a character editor would do.
module Editing {
  import opened Utf8
  import opened EditBuffer

  // Where a cursor motion leads.
  datatype Motion = CharLeft | CharRight | WordLeft | WordRight | ToLineStart | ToLineEnd

  // A deletion removes what lies between the cursor and a motion's target.
  datatype Edit = Insert(text: string) | Move(motion: Motion) | Delete(motion: Motion)

  function Splice(b: Buffer, text: seq<Byte>): Buffer
    requires b.cursor <= |b.bytes|
  {
    Buffer(b.bytes[..b.cursor] + text + b.bytes[b.cursor..], b.cursor + |text|)
  }

  // `String::drain`, leaving the cursor where the removed range began.
  function Drain(b: Buffer, from: nat, to: nat): Buffer
    requires from <= to <= |b.bytes|
  {
    Buffer(b.bytes[..from] + b.bytes[to..], from)
  }

  function Target(alphanumeric: char -> bool, b: Buffer, m: Motion): nat
    requires b.cursor <= |b.bytes|
  {
    match m
    case CharLeft => PrevCharBoundary(b.bytes, b.cursor)
    case CharRight => NextCharBoundary(b.bytes, b.cursor)
    case WordLeft => PreviousWordBoundary(alphanumeric, b.bytes, b.cursor)
    case WordRight => NextWordBoundary(alphanumeric, b.bytes, b.cursor)
    case ToLineStart => LineStart(b.bytes, b.cursor)
    case ToLineEnd => LineEnd(b.bytes, b.cursor)
  }

  function Cut(t: Text, from: nat, to: nat): Text
    requires from <= to <= |t.chars|
  {
    Text(t.chars[..from] + t.chars[to..], from)
  }

  function TextTarget(alphanumeric: char -> bool, t: Text, m: Motion): (r: nat)
    requires t.pos <= |t.chars|
    ensures r <= |t.chars|
  {
    var s, k := t.chars, t.pos;
    match m
    case CharLeft => if k == 0 then 0 else k - 1
    case CharRight => if k == |s| then k else k + 1
    case WordLeft => CharsLeft(alphanumeric, s, CharsLeft(alphanumeric, s, k, false), true)
    case WordRight => CharsRight(alphanumeric, s, CharsRight(alphanumeric, s, k, false), true)
    case ToLineStart => CharsLineStart(s, k)
    case ToLineEnd => CharsLineEnd(s, k)
  }

  function EditedText(alphanumeric: char -> bool, t: Text, e: Edit): Text
    requires t.pos <= |t.chars|
  {
    match e
    case Insert(text) => Text(t.chars[..t.pos] + text + t.chars[t.pos..], t.pos + |text|)
    case Move(m) => t.(pos := TextTarget(alphanumeric, t, m))
    case Delete(m) =>
      var k := TextTarget(alphanumeric, t, m);
      if k <= t.pos then Cut(t, k, t.pos) else Cut(t, t.pos, k)
  }

  // ---- the byte form refines the character form ----

  // Soundness is exactly being the byte form of some text and position.
  lemma RepresentedIsSound(b: Buffer, t: Text)
    requires Represents(b, t)
    ensures Sound(b)
  {
    FromUtf8Inverts(t.chars);
    OffsetBound(t.chars, t.pos);
  }

  lemma SoundIsRepresented(b: Buffer) returns (t: Text)
    requires Sound(b)
    ensures Represents(b, t)
  {
    var s := FromUtf8(b.bytes).value;
    var k := CutAtBoundary(s, b.cursor);
    t := Text(s, k);
  }

  lemma SplitAt(s: string, k: nat)
    requires k <= |s|
    ensures Offset(s, k) <= |Encode(s)|
    ensures Encode(s)[..Offset(s, k)] == Encode(s[..k]) && Encode(s)[Offset(s, k)..] == Encode(s[k..])
  {
    assert s == s[..k] + s[k..];
    EncodeConcat(s[..k], s[k..]);
  }

  lemma SpliceRefines(b: Buffer, t: Text, text: string)
    requires Represents(b, t)
    ensures b.cursor <= |b.bytes|
    ensures Represents(Splice(b, Encode(text)), Text(t.chars[..t.pos] + text + t.chars[t.pos..], t.pos + |text|))
  {
    var left, right := t.chars[..t.pos], t.chars[t.pos..];
    SplitAt(t.chars, t.pos);
    EncodeConcat(left, text);
    EncodeConcat(left + text, right);
    var all := left + text + right;
    assert all[..t.pos + |text|] == left + text;
  }

  lemma DrainRefines(b: Buffer, t: Text, from: nat, to: nat)
    requires Represents(b, t) && from <= to <= |t.chars|
    ensures Offset(t.chars, from) <= Offset(t.chars, to) <= |b.bytes|
    ensures Represents(Drain(b, Offset(t.chars, from), Offset(t.chars, to)), Cut(t, from, to))
  {
    var left, right := t.chars[..from], t.chars[to..];
    SplitAt(t.chars, from);
    SplitAt(t.chars, to);
    assert t.chars[..to] == left + t.chars[from..to];
    EncodeConcat(left, t.chars[from..to]);
    EncodeConcat(left, right);
    assert (left + right)[..from] == left;
  }

  lemma WordTargetsRefine(alphanumeric: char -> bool, b: Buffer, t: Text)
    requires Represents(b, t) && b.cursor <= |b.bytes|
    ensures Target(alphanumeric, b, WordLeft) == Offset(t.chars, TextTarget(alphanumeric, t, WordLeft))
    ensures Target(alphanumeric, b, WordRight) == Offset(t.chars, TextTarget(alphanumeric, t, WordRight))
  {
    var s, k := t.chars, t.pos;
    SkipLeftRefines(alphanumeric, s, k, false);
    SkipLeftRefines(alphanumeric, s, CharsLeft(alphanumeric, s, k, false), true);
    SkipRightRefines(alphanumeric, s, k, false);
    SkipRightRefines(alphanumeric, s, CharsRight(alphanumeric, s, k, false), true);
  }

  // Every motion leads to the byte offset of the position it leads to on text.
  lemma TargetRefines(alphanumeric: char -> bool, b: Buffer, t: Text, m: Motion)
    requires Represents(b, t) && b.cursor <= |b.bytes|
    ensures Target(alphanumeric, b, m) == Offset(t.chars, TextTarget(alphanumeric, t, m))
  {
    match m
    case CharLeft => PrevRefines(t.chars, t.pos);
    case CharRight => NextRefines(t.chars, t.pos);
    case ToLineStart => LineStartRefines(t.chars, t.pos);
    case ToLineEnd => LineEndRefines(t.chars, t.pos);
    case _ => WordTargetsRefine(alphanumeric, b, t);
  }

  // A sound cursor has its targets on character boundaries inside the text.
  lemma TargetIsSound(alphanumeric: char -> bool, b: Buffer, m: Motion)
    requires Sound(b)
    ensures Target(alphanumeric, b, m) <= |b.bytes| && IsCharBoundary(b.bytes, Target(alphanumeric, b, m))
  {
    var t := SoundIsRepresented(b);
    TargetRefines(alphanumeric, b, t, m);
    OffsetBound(t.chars, TextTarget(alphanumeric, t, m));
  }

  // What lies between the cursor and `to` removed.
  function Removed(b: Buffer, to: nat): Buffer
    requires b.cursor <= |b.bytes| && to <= |b.bytes|
  {
    if to <= b.cursor then Drain(b, to, b.cursor) else Drain(b, b.cursor, to)
  }

  function Edited(alphanumeric: char -> bool, b: Buffer, e: Edit): Buffer
    requires Sound(b)
  {
    match e
    case Insert(text) => Splice(b, Encode(text))
    case Move(m) => b.(cursor := Target(alphanumeric, b, m))
    case Delete(m) =>
      TargetIsSound(alphanumeric, b, m);
      var to := Target(alphanumeric, b, m);
      Removed(b, to)
  }

  lemma OffsetMonotone(s: string, j: nat, k: nat)
    requires j <= k <= |s|
    ensures Offset(s, j) <= Offset(s, k)
    ensures Offset(s, j) == Offset(s, k) ==> j == k
  {
    assert s[..k] == s[..j] + s[j..k];
    EncodeConcat(s[..j], s[j..k]);
    if j < k {
      OffsetBound(s[j..k], 0);
    }
  }

  // Removing what lies between the cursor and a position `k`, on bytes and on text.
  lemma RemovalRefines(b: Buffer, t: Text, to: nat, k: nat)
    requires Represents(b, t) && k <= |t.chars| && to == Offset(t.chars, k)
    ensures b.cursor <= |b.bytes| && to <= |b.bytes|
    ensures k <= t.pos <==> to <= b.cursor
    ensures k <= t.pos ==> Represents(Drain(b, to, b.cursor), Cut(t, k, t.pos))
    ensures k > t.pos ==> Represents(Drain(b, b.cursor, to), Cut(t, t.pos, k))
  {
    if k <= t.pos {
      OffsetMonotone(t.chars, k, t.pos);
      DrainRefines(b, t, k, t.pos);
    } else {
      OffsetMonotone(t.chars, t.pos, k);
      DrainRefines(b, t, t.pos, k);
    }
  }

  lemma DeleteRefines(alphanumeric: char -> bool, b: Buffer, t: Text, m: Motion)
    requires Represents(b, t) && Sound(b)
    ensures Represents(Edited(alphanumeric, b, Delete(m)), EditedText(alphanumeric, t, Delete(m)))
  {
    TargetRefines(alphanumeric, b, t, m);
    RemovalRefines(b, t, Target(alphanumeric, b, m), TextTarget(alphanumeric, t, m));
  }

  // Each byte operation does on bytes what its character twin does on text.
  lemma EditRefines(alphanumeric: char -> bool, b: Buffer, t: Text, e: Edit)
    requires Represents(b, t)
    ensures Sound(b) && Represents(Edited(alphanumeric, b, e), EditedText(alphanumeric, t, e))
  {
    RepresentedIsSound(b, t);
    match e
    case Insert(text) => SpliceRefines(b, t, text);
    case Move(m) => TargetRefines(alphanumeric, b, t, m);
    case Delete(m) => DeleteRefines(alphanumeric, b, t, m);
  }

  lemma EditKeepsSound(alphanumeric: char -> bool, b: Buffer, e: Edit)
    requires Sound(b)
    ensures Sound(Edited(alphanumeric, b, e))
  {
    var t := SoundIsRepresented(b);
    EditRefines(alphanumeric, b, t, e);
    RepresentedIsSound(Edited(alphanumeric, b, e), EditedText(alphanumeric, t, e));
  }

  // ---- where the motions lead, in the text ----

  // Letters, digits, whatever else `alphanumeric` takes in, and the underscore.
  predicate InWord(alphanumeric: char -> bool, c: char)
  {
    alphanumeric(c) || c == '_'
  }

  // From `i` to `j` all characters are in words, or none is.
  predicate AllAlike(alphanumeric: char -> bool, s: string, i: nat, j: nat, word: bool)
    requires i <= j <= |s|
  {
    forall k | i <= k < j :: InWord(alphanumeric, s[k]) == word
  }

  lemma {:induction false} CharsLeftIs(alphanumeric: char -> bool, s: string, k: nat, word: bool)
    requires k <= |s|
    ensures
      var r := CharsLeft(alphanumeric, s, k, word);
      AllAlike(alphanumeric, s, r, k, word) && (r > 0 ==> InWord(alphanumeric, s[r - 1]) != word)
    decreases k
  {
    if k > 0 && InWord(alphanumeric, s[k - 1]) == word {
      CharsLeftIs(alphanumeric, s, k - 1, word);
    }
  }

  lemma {:induction false} CharsRightIs(alphanumeric: char -> bool, s: string, k: nat, word: bool)
    requires k <= |s|
    ensures
      var r := CharsRight(alphanumeric, s, k, word);
      AllAlike(alphanumeric, s, k, r, word) && (r < |s| ==> InWord(alphanumeric, s[r]) != word)
    decreases |s| - k
  {
    if k < |s| && InWord(alphanumeric, s[k]) == word {
      CharsRightIs(alphanumeric, s, k + 1, word);
    }
  }

  // A word motion crosses what is between words and then one whole word: from the
  // cursor to `mid` nothing is in a word, from there to the target everything is,
  // and neither stretch could be longer.
  lemma WordLeftIs(alphanumeric: char -> bool, t: Text) returns (mid: nat)
    requires t.pos <= |t.chars|
    ensures
      var s, r := t.chars, TextTarget(alphanumeric, t, WordLeft);
      && r <= mid <= t.pos
      && AllAlike(alphanumeric, s, mid, t.pos, false) && (mid > 0 ==> InWord(alphanumeric, s[mid - 1]))
      && AllAlike(alphanumeric, s, r, mid, true) && (r > 0 ==> !InWord(alphanumeric, s[r - 1]))
  {
    mid := CharsLeft(alphanumeric, t.chars, t.pos, false);
    CharsLeftIs(alphanumeric, t.chars, t.pos, false);
    CharsLeftIs(alphanumeric, t.chars, mid, true);
  }

  lemma WordRightIs(alphanumeric: char -> bool, t: Text) returns (mid: nat)
    requires t.pos <= |t.chars|
    ensures
      var s, r := t.chars, TextTarget(alphanumeric, t, WordRight);
      && t.pos <= mid <= r
      && AllAlike(alphanumeric, s, t.pos, mid, false) && (mid < |s| ==> InWord(alphanumeric, s[mid]))
      && AllAlike(alphanumeric, s, mid, r, true) && (r < |s| ==> !InWord(alphanumeric, s[r]))
  {
    mid := CharsRight(alphanumeric, t.chars, t.pos, false);
    CharsRightIs(alphanumeric, t.chars, t.pos, false);
    CharsRightIs(alphanumeric, t.chars, mid, true);
  }

  predicate OneLine(s: string, i: nat, j: nat)
    requires i <= j <= |s|
  {
    forall k | i <= k < j :: s[k] != '\n'
  }

  lemma {:induction false} LineStartIs(s: string, k: nat)
    requires k <= |s|
    ensures
      var r := CharsLineStart(s, k);
      OneLine(s, r, k) && (r > 0 ==> s[r - 1] == '\n')
    decreases k
  {
    if k > 0 && s[k - 1] != '\n' {
      LineStartIs(s, k - 1);
    }
  }

  lemma {:induction false} LineEndIs(s: string, k: nat)
    requires k <= |s|
    ensures
      var r := CharsLineEnd(s, k);
      OneLine(s, k, r) && (r < |s| ==> s[r] == '\n')
    decreases |s| - k
  {
    if k < |s| && s[k] != '\n' {
      LineEndIs(s, k + 1);
    }
  }

  // The other motions: one character, or to the edge of the line.
  lemma OtherMotionsAre(alphanumeric: char -> bool, t: Text)
    requires t.pos <= |t.chars|
    ensures TextTarget(alphanumeric, t, CharLeft) == if t.pos > 0 then t.pos - 1 else 0
    ensures TextTarget(alphanumeric, t, CharRight) == if t.pos < |t.chars| then t.pos + 1 else t.pos
    ensures
      var r := TextTarget(alphanumeric, t, ToLineStart);
      r <= t.pos && OneLine(t.chars, r, t.pos) && (r > 0 ==> t.chars[r - 1] == '\n')
    ensures
      var r := TextTarget(alphanumeric, t, ToLineEnd);
      t.pos <= r && OneLine(t.chars, t.pos, r) && (r < |t.chars| ==> t.chars[r] == '\n')
  {
    LineStartIs(t.chars, t.pos);
    LineEndIs(t.chars, t.pos);
  }

  // ---- an edit undone ----

  lemma SameTextSameBytes(a: Buffer, b: Buffer, t: Text)
    requires Represents(a, t) && Represents(b, t)
    ensures a == b
  {
  }

  lemma ErasedText(alphanumeric: char -> bool, t: Text, c: char)
    requires t.pos <= |t.chars|
    ensures
      var typed := EditedText(alphanumeric, t, Insert([c]));
      typed.pos <= |typed.chars| && EditedText(alphanumeric, typed, Delete(CharLeft)) == t
  {
    var typed := EditedText(alphanumeric, t, Insert([c]));
    assert typed.chars[..t.pos] == t.chars[..t.pos] && typed.chars[t.pos + 1..] == t.chars[t.pos..];
  }

  // Backspace takes back the character typed last, on the bytes.
  lemma BackspaceUndoesTyping(alphanumeric: char -> bool, b: Buffer, c: char)
    requires Sound(b)
    ensures
      var typed := Edited(alphanumeric, b, Insert([c]));
      Sound(typed) && Edited(alphanumeric, typed, Delete(CharLeft)) == b
  {
    var t := SoundIsRepresented(b);
    var typed := Edited(alphanumeric, b, Insert([c]));
    EditRefines(alphanumeric, b, t, Insert([c]));
    RepresentedIsSound(typed, EditedText(alphanumeric, t, Insert([c])));
    ErasedText(alphanumeric, t, c);
    EditRefines(alphanumeric, typed, EditedText(alphanumeric, t, Insert([c])), Delete(CharLeft));
    SameTextSameBytes(Edited(alphanumeric, typed, Delete(CharLeft)), b, t);
  }
}
