// How a session is named: the client's check of its argument and the server's
// check of the request, each written as its own end has it.
module SessionNames {
  import opened Prelude

  datatype NameError = TooLong | ControlCharacter | ContainsSlash

  // `char::is_control`: the Unicode general category Cc.
  predicate IsControl(c: char)
  {
    c as int < 0x20 || 0x7F <= c as int < 0xA0
  }

  // ---- the client ----

  const TUI_MAIN_SESSION: string := "main"
  const TUI_SESSION_MAX_CHARS: nat := 80

  // `Option::transpose` followed by `Option::flatten`.
  function Settle<T, E>(looked: Option<Result<Option<T>, E>>): Result<Option<T>, E>
  {
    match looked
    case None => Ok(None)
    case Some(Ok(value)) => Ok(value)
    case Some(Err(error)) => Err(error)
  }

  function MapOption<T, U>(o: Option<T>, g: T -> U): Option<U>
  {
    match o
    case None => None
    case Some(value) => Some(g(value))
  }

  function NormalizeSessionArg(session: Option<string>): Result<Option<string>, NameError>
  {
    Settle(MapOption(session, NormalizeSessionName))
  }

  function NormalizeSessionName(raw: string): Result<Option<string>, NameError>
  {
    var name := Trim(raw);
    if name == [] || AsciiLower(name) == AsciiLower(TUI_MAIN_SESSION) then Ok(None)
    else if |name| > TUI_SESSION_MAX_CHARS then Err(TooLong)
    else if exists c <- name :: IsControl(c) then Err(ControlCharacter)
    else if '/' in name then Err(ContainsSlash)
    else Ok(Some(name))
  }

  // ---- the server ----

  datatype TuiSession = TuiSession(name: Option<string>)

  const MAIN: string := "main"
  const MAX_CHARS: nat := 80
  const MAIN_SESSION: TuiSession := TuiSession(None)

  function Parse(raw: Option<string>): Result<TuiSession, NameError>
  {
    if raw.None? then Ok(MAIN_SESSION)
    else
      var name := Trim(raw.value);
      if name == [] || AsciiLower(name) == AsciiLower(MAIN) then Ok(MAIN_SESSION)
      else if |name| > MAX_CHARS then Err(TooLong)
      else if exists c <- name :: IsControl(c) then Err(ControlCharacter)
      else if '/' in name then Err(ContainsSlash)
      else Ok(TuiSession(Some(name)))
  }

  // ---- both ends ----

  predicate NamesMain(raw: Option<string>)
  {
    raw.Some? ==> Blank(raw.value) || AsciiLower(Trim(raw.value)) == "main"
  }

  // A name that stands for a session of its own, as it is.
  predicate OwnName(name: string)
  {
    && Trimmed(name) && 0 < |name| <= 80 && AsciiLower(name) != "main"
    && forall c <- name :: c != '/' && !(c as int < 32 || 127 <= c as int <= 159)
  }

  lemma LowerMain()
    ensures AsciiLower("main") == "main"
  {
  }

  // Client and server judge every argument alike, errors included.
  lemma BothEndsAgree(raw: Option<string>)
    ensures
      match Parse(raw)
      case Ok(session) => NormalizeSessionArg(raw) == Ok(session.name)
      case Err(error) => NormalizeSessionArg(raw) == Err(error)
  {
    if raw.Some? {
      NameAgrees(raw.value);
    }
  }

  // One guard at a time.
  lemma NameAgrees(raw: string)
    ensures Parse(Some(raw)) == match NormalizeSessionName(raw) case Ok(name) => Ok(TuiSession(name)) case Err(error) => Err(error)
  {
    var name := Trim(raw);
    if name == [] || AsciiLower(name) == AsciiLower(MAIN) {
      assert Parse(Some(raw)) == Ok(MAIN_SESSION);
    } else if |name| > MAX_CHARS {
      assert Parse(Some(raw)) == Err(TooLong);
    } else if exists c <- name :: IsControl(c) {
      assert Parse(Some(raw)) == Err(ControlCharacter);
    } else if '/' in name {
      assert Parse(Some(raw)) == Err(ContainsSlash);
    }
  }

  lemma BlankIsMain(raw: Option<string>)
    ensures NamesMain(raw) <==> raw.None? || Trim(raw.value) == [] || AsciiLower(Trim(raw.value)) == AsciiLower(MAIN)
  {
    LowerMain();
    if raw.Some? {
      TrimBlank(raw.value);
    }
  }

  // The server reads the main session exactly where no other is named.
  lemma MainExactlyWhenUnnamed(raw: Option<string>)
    ensures Parse(raw) == Ok(MAIN_SESSION) <==> NamesMain(raw)
  {
    BlankIsMain(raw);
  }

  // It reads a session of its own exactly where the argument is that session's
  // name up to surrounding whitespace.
  lemma OwnExactlyWhenNamed(raw: string, name: string)
    ensures Parse(Some(raw)) == Ok(TuiSession(Some(name))) <==> name == Trim(raw) && OwnName(name)
  {
    LowerMain();
    TrimIsTrimmed(raw);
  }

  // A session that the client puts into a request, the server reads as that very
  // session; and these sessions are exactly the ones the server reads unchanged.
  lemma ServerReadsClientName(session: Option<string>)
    ensures (exists raw :: NormalizeSessionArg(raw) == Ok(session)) <==> Parse(session) == Ok(TuiSession(session))
  {
    if Parse(session) == Ok(TuiSession(session)) {
      BothEndsAgree(session);
    }
    forall raw | NormalizeSessionArg(raw) == Ok(session) ensures Parse(session) == Ok(TuiSession(session)) {
      BothEndsAgree(raw);
      ReadAgain(raw, session);
    }
  }

  lemma ReadAgain(raw: Option<string>, session: Option<string>)
    requires Parse(raw) == Ok(TuiSession(session))
    ensures Parse(session) == Ok(TuiSession(session))
  {
    if session.Some? {
      OwnExactlyWhenNamed(raw.value, session.value);
      OwnExactlyWhenNamed(session.value, session.value);
      TrimIdentity(session.value);
    }
  }

  // An argument that names neither is refused for the first rule its name breaks:
  // its length, then control characters, then a slash.
  lemma RefusedForTheFirstRule(raw: string)
    requires !NamesMain(Some(raw)) && !OwnName(Trim(raw))
    ensures
      var name := Trim(raw);
      Parse(Some(raw)) == Err(if |name| > 80 then TooLong
                              else if exists c <- name :: c as int < 32 || 127 <= c as int <= 159 then ControlCharacter
                              else ContainsSlash)
  {
    LowerMain();
    TrimBlank(raw);
    TrimIsTrimmed(raw);
  }
}
