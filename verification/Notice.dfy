// The counted notices the bridge prints and the client parses back.
module Notice {
  import opened Prelude

  const USIZE_LIMIT := 0x1_0000_0000_0000_0000

  predicate IsDigit(c: char)
  {
    '0' <= c <= '9'
  }

  function DigitValue(c: char): (d: nat)
    requires IsDigit(c)
    ensures d < 10
  {
    c as int - '0' as int
  }

  function DigitChar(d: nat): (c: char)
    requires d < 10
    ensures IsDigit(c) && DigitValue(c) == d
  {
    ('0' as int + d) as char
  }

  // Decimal printing, as `format!("{n}")` does it.
  function Decimal(n: nat): (s: string)
    ensures s != []
  {
    if n < 10 then [DigitChar(n)] else Decimal(n / 10) + [DigitChar(n % 10)]
  }

  predicate AllDigits(s: string)
  {
    forall i | 0 <= i < |s| :: IsDigit(s[i])
  }

  function DecimalValue(s: string): nat
    requires AllDigits(s)
  {
    if s == [] then 0
    else 10 * DecimalValue(s[..|s| - 1]) + DigitValue(s[|s| - 1])
  }

  // `str::parse::<usize>()`: an optional plus sign, at least one digit, no overflow.
  function ParseUsize(s: string): Option<nat>
  {
    var body := if s != [] && s[0] == '+' then s[1..] else s;
    if body == [] || !AllDigits(body) then None
    else if DecimalValue(body) < USIZE_LIMIT then Some(DecimalValue(body))
    else None
  }

  lemma {:induction false} DecimalRoundTrip(n: nat)
    ensures AllDigits(Decimal(n)) && DecimalValue(Decimal(n)) == n
  {
    if n >= 10 {
      DecimalRoundTrip(n / 10);
      var s := Decimal(n);
      assert s[..|s| - 1] == Decimal(n / 10);
    } else {
      assert Decimal(n)[..0] == [];
    }
  }

  function SteeringNotice(base: string, count: nat): string
  {
    if count <= 1 then base else base + " (" + Decimal(count) + ")"
  }

  function NoticeCount(text: string, prefix: string): Option<nat>
  {
    match StripPrefix(text, prefix)
    case None => None
    case Some(tail) =>
      var rest := Trim(tail);
      if rest == [] then Some(1)
      else if rest[0] == '(' && rest[|rest| - 1] == ')' && |rest| >= 2 then ParseUsize(rest[1..|rest| - 1])
      else None
  }

  lemma TrimPadded(rest: string)
    requires Trimmed(rest)
    ensures Trim([' '] + rest) == rest
  {
    TrimIdentity(rest);
    var s := [' '] + rest;
    assert s[0] == ' ' && s[1..] == rest;
    assert TrimStart(s) == TrimStart(rest);
  }

  lemma ParseDecimal(n: nat)
    requires n < USIZE_LIMIT
    ensures ParseUsize(Decimal(n)) == Some(n)
  {
    DecimalRoundTrip(n);
    assert IsDigit(Decimal(n)[0]);
  }

  lemma CountedNoticeRoundTrip(base: string, count: nat)
    requires 2 <= count < USIZE_LIMIT
    ensures NoticeCount(SteeringNotice(base, count), base) == Some(count)
  {
    var rest := "(" + Decimal(count) + ")";
    var text := SteeringNotice(base, count);
    assert text == base + ([' '] + rest);
    assert StripPrefix(text, base) == Some([' '] + rest);
    TrimPadded(rest);
    assert rest[1..|rest| - 1] == Decimal(count);
    ParseDecimal(count);
  }

  // The count that was printed is the count that is read back, with the single
  // exception of zero, whose notice reads as one.
  lemma NoticeRoundTrip(base: string, count: nat)
    requires count < USIZE_LIMIT
    ensures NoticeCount(SteeringNotice(base, count), base) == Some(count) <==> count != 0
    ensures count == 0 ==> NoticeCount(SteeringNotice(base, count), base) == Some(1)
  {
    if count <= 1 {
      assert base[|base|..] == [];
    } else {
      CountedNoticeRoundTrip(base, count);
    }
  }

  // What `usize::from_str` takes: digits, with a plus sign before them or not,
  // whose number is below 2^64.
  lemma ParseUsizeExactly(s: string, n: nat)
    ensures ParseUsize(s) == Some(n)
       <==> || (s != [] && AllDigits(s) && DecimalValue(s) == n < 0x1_0000_0000_0000_0000)
            || (|s| > 1 && s[0] == '+' && AllDigits(s[1..]) && DecimalValue(s[1..]) == n < 0x1_0000_0000_0000_0000)
  {
  }

  predicate Bracketed(rest: string, digits: string)
  {
    rest == ['('] + digits + [')']
  }

  lemma InBrackets(rest: string)
    requires |rest| >= 2 && rest[0] == '(' && rest[|rest| - 1] == ')'
    ensures Bracketed(rest, rest[1..|rest| - 1])
  {
  }

  lemma BracketsOff(rest: string, digits: string)
    requires Bracketed(rest, digits)
    ensures |rest| >= 2 && rest[0] == '(' && rest[|rest| - 1] == ')' && rest[1..|rest| - 1] == digits
  {
  }

  lemma TailIsRead(prefix: string, tail: string)
    ensures StripPrefix(prefix + tail, prefix) == Some(tail)
  {
    assert (prefix + tail)[|prefix|..] == tail;
  }

  lemma BracketedIsRead(prefix: string, tail: string, digits: string)
    requires Bracketed(Trim(tail), digits)
    ensures NoticeCount(prefix + tail, prefix) == ParseUsize(digits)
  {
    TailIsRead(prefix, tail);
    BracketsOff(Trim(tail), digits);
  }

  lemma OnlyBracketsAreRead(prefix: string, tail: string)
    requires Trim(tail) != [] && NoticeCount(prefix + tail, prefix).Some?
    ensures exists digits :: Bracketed(Trim(tail), digits)
  {
    TailIsRead(prefix, tail);
    InBrackets(Trim(tail));
  }

  // A text is no notice unless it begins with the words. What follows them, spaces
  // aside, is a count of `n` exactly when it is nothing, and `n` is one, or `n` in brackets.
  lemma NoticeCountExactly(prefix: string, tail: string, n: nat)
    ensures !StartsWith(tail, prefix) ==> NoticeCount(tail, prefix) == None
    ensures NoticeCount(prefix + tail, prefix) == Some(n)
       <==> (Trim(tail) == [] && n == 1) || exists digits :: Bracketed(Trim(tail), digits) && ParseUsize(digits) == Some(n)
  {
    TailIsRead(prefix, tail);
    forall digits | Bracketed(Trim(tail), digits) ensures NoticeCount(prefix + tail, prefix) == ParseUsize(digits) {
      BracketedIsRead(prefix, tail, digits);
    }
    if Trim(tail) != [] && NoticeCount(prefix + tail, prefix) == Some(n) {
      OnlyBracketsAreRead(prefix, tail);
    }
  }
}
