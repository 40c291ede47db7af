// The memory tool's arguments are rewritten before the tool sees them: skills and
// tool notes become agent-global, everything else person and agent scoped.
module ArgumentRewrite {
  import opened Prelude
  import opened Addressing
  import opened MemoryIdentity

  datatype Json = Null | Bool(b: bool) | Number(n: int) | String(s: string) | Array(items: seq<Json>) | Object(fields: map<string, Json>)

  const ORIGIN_OWNER_ATTR: string := "agent_message_origin_owner"

  function OwnerKey(subject: Subject): string
  {
    var origin := Attr(subject, ORIGIN_OWNER_ATTR);
    if origin.Some? then origin.value else subject.id
  }

  function AgentFromSubject(subject: Subject): Option<string>
  {
    var named := Attr(subject, "agent");
    var tui := StripPrefix(subject.id, SCHEME);
    if named.Some? then named else if tui.Some? then tui else StripPrefix(subject.id, "agent:")
  }

  function AsText(v: Option<Json>): Option<string>
  {
    if v.Some? && v.value.String? then Some(v.value.s) else None
  }

  function NotBlank(s: Option<string>): Option<string>
  {
    if s.Some? && Blank(s.value) then None else s
  }

  function TextOrNull(s: Option<string>): Json
  {
    if s.Some? then String(s.value) else Null
  }

  // What the rewrite looks at: the parts of the `scope` argument, if it is an object.
  datatype ScopeArgs = NoScope | ScopeArgs(owner: Option<Json>, agent: Option<Json>)

  function ReadScope(scope: Option<Json>): ScopeArgs
  {
    if scope.Some? && scope.value.Object? then ScopeArgs(Lookup(scope.value.fields, "owner"), Lookup(scope.value.fields, "agent"))
    else NoScope
  }

  // `scope_to_value`: only owner and agent are ever set.
  function WriteScope(owner: Option<string>, agent: Option<string>): Json
  {
    Object(map["owner" := TextOrNull(owner), "channel" := Null, "conv" := Null, "agent" := TextOrNull(agent), "kind" := Null])
  }

  lemma ReadWritten(owner: Option<string>, agent: Option<string>)
    ensures ReadScope(Some(WriteScope(owner, agent))) == ScopeArgs(Some(TextOrNull(owner)), Some(TextOrNull(agent)))
  {
    assert |"channel"| != |"owner"| && |"conv"| != |"owner"| && |"kind"| != |"owner"|;
    assert "owner"[0] != "agent"[0];
  }

  predicate IsGlobalClass(c: Option<Json>)
  {
    AsText(c) == Some("skill") || AsText(c) == Some("tools")
  }

  function GlobalAgent(args: ScopeArgs, subject: Subject): Option<string>
  {
    var own := AgentFromSubject(subject);
    NotBlank(if own.Some? then own else if args.ScopeArgs? then AsText(args.agent) else None)
  }

  function ExplicitAgent(args: ScopeArgs): Option<string>
  {
    if args.ScopeArgs? then NotBlank(AsText(args.agent)) else None
  }

  function PersonAgent(args: ScopeArgs, subject: Subject): Option<string>
  {
    if ExplicitAgent(args).Some? then ExplicitAgent(args) else AgentFromSubject(subject)
  }

  function PersonOwner(args: ScopeArgs, subject: Subject, users: Groups): Option<string>
  {
    var owner := if args.ScopeArgs? then args.owner else None;
    if owner.Some? && owner.value.Null? then None
    else if owner.Some? && owner.value.String? && !Blank(owner.value.s) then Some(CanonicalOwner(users, owner.value.s))
    else if owner.None? && args.ScopeArgs? && ExplicitAgent(args).Some? then None
    else Some(CanonicalOwner(users, OwnerKey(subject)))
  }

  function NewScope(global: bool, args: ScopeArgs, subject: Subject, users: Groups): Json
  {
    if global then WriteScope(None, GlobalAgent(args, subject))
    else WriteScope(PersonOwner(args, subject, users), PersonAgent(args, subject))
  }

  function NormalizeArgs(args: Json, subject: Subject, users: Groups): Json
  {
    if !args.Object? then args
    else
      var scope := NewScope(IsGlobalClass(Lookup(args.fields, "class")), ReadScope(Lookup(args.fields, "scope")), subject, users);
      Object(args.fields["scope" := scope])
  }

  // ---- what is written ----

  // A written scope names owner and agent, and is open in every other respect.
  lemma WrittenScopeIs(owner: Option<string>, agent: Option<string>)
    ensures
      var scope := WriteScope(owner, agent);
      && scope.Object? && scope.fields.Keys == {"owner", "channel", "conv", "agent", "kind"}
      && scope.fields["channel"] == scope.fields["conv"] == scope.fields["kind"] == Null
      && scope.fields["owner"] == (if owner.Some? then String(owner.value) else Null)
      && scope.fields["agent"] == (if agent.Some? then String(agent.value) else Null)
  {
    assert |"channel"| == 7 && |"conv"| == |"kind"| == 4 && |"owner"| == |"agent"| == 5;
    assert "owner"[0] != "agent"[0] && "conv"[0] != "kind"[0];
  }

  // Skills and tool notes belong to an agent and to nobody in particular: the
  // caller's own agent if it is known, and else the one named.
  lemma SkillsBelongToTheAgent(args: Json, subject: Subject, users: Groups, named: ScopeArgs)
    requires args.Object? && "class" in args.fields && args.fields["class"] in {String("skill"), String("tools")}
    requires named == ReadScope(Lookup(args.fields, "scope"))
    ensures
      var own := AgentFromSubject(subject);
      var agent := if own.Some? then own else if named.ScopeArgs? && named.agent.Some? && named.agent.value.String? then Some(named.agent.value.s) else None;
      NormalizeArgs(args, subject, users)
      == Object(args.fields["scope" := WriteScope(None, if agent.Some? && Blank(agent.value) then None else agent)])
  {
  }

  // Everything else belongs to a person: the owner named, folded into the person's
  // one owner; nobody if null is named, or an agent alone; and else the subject. The
  // agent named stands, if it is not blank, and else the subject's.
  lemma MemoriesBelongToThePerson(args: Json, subject: Subject, users: Groups, named: ScopeArgs)
    requires args.Object? && ("class" in args.fields ==> args.fields["class"] !in {String("skill"), String("tools")})
    requires named == ReadScope(Lookup(args.fields, "scope"))
    ensures
      var byAgent := named.ScopeArgs? && named.agent.Some? && named.agent.value.String? && !Blank(named.agent.value.s);
      var owner :=
        if named.NoScope? then Some(CanonicalOwner(users, OwnerKey(subject)))
        else
          match named.owner
          case Some(Null) => None
          case None => if byAgent then None else Some(CanonicalOwner(users, OwnerKey(subject)))
          case Some(String(o)) => Some(CanonicalOwner(users, if Blank(o) then OwnerKey(subject) else o))
          case Some(_) => Some(CanonicalOwner(users, OwnerKey(subject)));
      NormalizeArgs(args, subject, users)
      == Object(args.fields["scope" := WriteScope(owner, if byAgent then Some(named.agent.value.s) else AgentFromSubject(subject))])
  {
  }

  // The agent of a subject: the one it names, and else the one its identity is of.
  lemma AgentOfSubjectIs(s: Subject, name: string)
    ensures "agent" in s.attrs ==> AgentFromSubject(s) == Some(s.attrs["agent"])
    ensures "agent" !in s.attrs && (s.id == "tui:" + name || s.id == "agent:" + name) ==> AgentFromSubject(s) == Some(name)
    ensures "agent" !in s.attrs && !StartsWith(s.id, "tui:") && !StartsWith(s.id, "agent:") ==> AgentFromSubject(s) == None
  {
    StripScheme(name);
    assert ("agent:" + name)[0] == 'a' && SCHEME[0] == 't' && ("agent:" + name)[|"agent:"|..] == name;
  }

  // ---- rewriting twice changes nothing ----

  predicate NonBlankOwners(users: Groups)
  {
    forall group <- users, o <- group :: !Blank(o)
  }

  lemma CanonicalIsNotBlank(users: Groups, owner: string)
    requires NonBlankOwners(users) && !Blank(owner)
    ensures !Blank(CanonicalOwner(users, owner))
  {
  }

  // What a written owner is read as the second time: a blank one is replaced by
  // the subject's own, any other by the one that stands for it.
  predicate OwnerStands(owner: Option<string>, subject: Subject, users: Groups)
  {
    owner.None? || CanonicalOwner(users, if Blank(owner.value) then OwnerKey(subject) else owner.value) == owner.value
  }

  lemma OwnerSettlesExactlyWhen(owner: Option<string>, subject: Subject, users: Groups, agent: Json)
    ensures PersonOwner(ScopeArgs(Some(TextOrNull(owner)), Some(agent)), subject, users) == owner
       <==> OwnerStands(owner, subject, users)
  {
  }

  lemma AgentSettles(args: ScopeArgs, subject: Subject, owner: Json)
    ensures
      var agent := PersonAgent(args, subject);
      PersonAgent(ScopeArgs(Some(owner), Some(TextOrNull(agent))), subject) == agent
    ensures
      var agent := GlobalAgent(args, subject);
      GlobalAgent(ScopeArgs(Some(owner), Some(TextOrNull(agent))), subject) == agent
  {
  }

  lemma WrittenScopesDiffer(a: Option<string>, b: Option<string>, agent: Option<string>)
    ensures WriteScope(a, agent) == WriteScope(b, agent) <==> a == b
  {
    ReadWritten(a, agent);
    ReadWritten(b, agent);
  }

  // The written scope is read back as it was, unless it is personal and its
  // owner does not stand.
  predicate ScopeStands(global: bool, args: ScopeArgs, subject: Subject, users: Groups)
  {
    global || OwnerStands(PersonOwner(args, subject, users), subject, users)
  }

  lemma ScopeSettlesExactlyWhen(global: bool, args: ScopeArgs, subject: Subject, users: Groups)
    ensures NewScope(global, ReadScope(Some(NewScope(global, args, subject, users))), subject, users)
         == NewScope(global, args, subject, users)
       <==> ScopeStands(global, args, subject, users)
  {
    if global {
      ReadWritten(None, GlobalAgent(args, subject));
      AgentSettles(args, subject, Null);
    } else {
      var owner, agent := PersonOwner(args, subject, users), PersonAgent(args, subject);
      var again := PersonOwner(ScopeArgs(Some(TextOrNull(owner)), Some(TextOrNull(agent))), subject, users);
      ReadWritten(owner, agent);
      OwnerSettlesExactlyWhen(owner, subject, users, TextOrNull(agent));
      AgentSettles(args, subject, TextOrNull(owner));
      WrittenScopesDiffer(again, owner, agent);
    }
  }

  // Whether the second rewrite of the arguments changes nothing.
  predicate ArgsStand(args: Json, subject: Subject, users: Groups)
  {
    args.Object? ==> ScopeStands(IsGlobalClass(Lookup(args.fields, "class")), ReadScope(Lookup(args.fields, "scope")), subject, users)
  }

  // Rewriting twice is rewriting once exactly when the class is agent-global or
  // the owner written stands: for any JSON, any subject and any groups.
  lemma NormalizeSettlesExactlyWhen(args: Json, subject: Subject, users: Groups)
    ensures NormalizeArgs(NormalizeArgs(args, subject, users), subject, users) == NormalizeArgs(args, subject, users)
       <==> ArgsStand(args, subject, users)
  {
    if args.Object? {
      var global, scope := IsGlobalClass(Lookup(args.fields, "class")), ReadScope(Lookup(args.fields, "scope"));
      var once := NormalizeArgs(args, subject, users);
      assert |"scope"| == |"class"| && "scope"[0] != "class"[0];
      assert Lookup(once.fields, "class") == Lookup(args.fields, "class");
      ScopeSettlesExactlyWhen(global, scope, subject, users);
      var written := NewScope(global, scope, subject, users);
      var again := NewScope(global, ReadScope(Some(written)), subject, users);
      OneKeyDiffers(args.fields, "scope", written, again);
    }
  }

  lemma OneKeyDiffers(fields: map<string, Json>, key: string, a: Json, b: Json)
    ensures fields[key := a][key := b] == fields[key := a] <==> a == b
  {
    assert fields[key := a][key := b][key] == b;
  }

  // With disjoint groups of non-blank owners it always is.
  lemma NormalizeIsIdempotent(args: Json, subject: Subject, users: Groups)
    requires Disjoint(users) && NonBlankOwners(users)
    ensures NormalizeArgs(NormalizeArgs(args, subject, users), subject, users) == NormalizeArgs(args, subject, users)
  {
    NormalizeSettlesExactlyWhen(args, subject, users);
    if args.Object? {
      OwnerStandsWhenDisjoint(ReadScope(Lookup(args.fields, "scope")), subject, users);
    }
  }

  lemma OwnerStandsWhenDisjoint(args: ScopeArgs, subject: Subject, users: Groups)
    requires Disjoint(users) && NonBlankOwners(users)
    ensures OwnerStands(PersonOwner(args, subject, users), subject, users)
  {
    CanonicalIsIdempotent(users, OwnerKey(subject));
    if args.ScopeArgs? && args.owner.Some? && args.owner.value.String? && !Blank(args.owner.value.s) {
      CanonicalIsIdempotent(users, args.owner.value.s);
      CanonicalIsNotBlank(users, args.owner.value.s);
    }
  }

  // ---- the groups for which it always is ----

  ghost predicate RewritesSettle(users: Groups)
  {
    forall args, subject :: NormalizeArgs(NormalizeArgs(args, subject, users), subject, users) == NormalizeArgs(args, subject, users)
  }

  // An owner's canonical owner stands for itself, and is blank for blank owners only.
  predicate OwnerFolds(users: Groups, o: string)
  {
    var c := CanonicalOwner(users, o);
    if Blank(c) then Blank(o) else CanonicalOwner(users, c) == c
  }

  // Rewriting twice is rewriting once, for all arguments and subjects, exactly
  // when every owner's canonical owner stands for itself and no owner but a
  // blank one is folded into a blank one.
  lemma RewritesSettleExactlyWhen(users: Groups)
    ensures RewritesSettle(users) <==> forall o: string :: OwnerFolds(users, o)
  {
    if RewritesSettle(users) {
      forall o: string ensures OwnerFolds(users, o) {
        if Blank(o) {
          BlankFolds(users, o);
        } else {
          NamedFolds(users, o);
        }
      }
    }
    if forall o: string :: OwnerFolds(users, o) {
      forall args, subject
        ensures NormalizeArgs(NormalizeArgs(args, subject, users), subject, users) == NormalizeArgs(args, subject, users)
      {
        NormalizeSettlesExactlyWhen(args, subject, users);
        if args.Object? {
          FoldedStands(ReadScope(Lookup(args.fields, "scope")), subject, users);
        }
      }
    }
  }

  lemma FoldedStands(args: ScopeArgs, subject: Subject, users: Groups)
    requires forall o: string :: OwnerFolds(users, o)
    ensures OwnerStands(PersonOwner(args, subject, users), subject, users)
  {
    assert OwnerFolds(users, OwnerKey(subject));
    if args.ScopeArgs? && args.owner.Some? && args.owner.value.String? && !Blank(args.owner.value.s) {
      assert OwnerFolds(users, args.owner.value.s);
    }
  }

  // The subject's own owner, written by default.
  lemma BlankFolds(users: Groups, o: string)
    requires RewritesSettle(users) && Blank(o)
    ensures OwnerFolds(users, o)
  {
    var args, subject := Object(map[]), Subject(o, map[]);
    NormalizeSettlesExactlyWhen(args, subject, users);
    assert OwnerKey(subject) == o;
    assert PersonOwner(NoScope, subject, users) == Some(CanonicalOwner(users, o));
  }

  // An owner named in the arguments, by a subject that is in no group.
  lemma NamedFolds(users: Groups, o: string)
    requires RewritesSettle(users) && !Blank(o)
    ensures OwnerFolds(users, o)
  {
    var stranger := Stranger(users);
    var args, subject := NamingOwner(o), Subject(stranger, map[]);
    NormalizeSettlesExactlyWhen(args, subject, users);
    assert OwnerKey(subject) == stranger == CanonicalOwner(users, stranger);
    NamedOwner(o, subject, users);
  }

  function NamingOwner(o: string): Json
  {
    Object(map["scope" := Object(map["owner" := String(o)])])
  }

  lemma NamedOwner(o: string, subject: Subject, users: Groups)
    requires !Blank(o)
    ensures !IsGlobalClass(Lookup(NamingOwner(o).fields, "class"))
    ensures PersonOwner(ReadScope(Lookup(NamingOwner(o).fields, "scope")), subject, users) == Some(CanonicalOwner(users, o))
  {
    assert "scope"[0] != "class"[0];
  }

  // A non-blank owner longer than any in the groups.
  lemma Stranger(users: Groups) returns (o: string)
    ensures !Blank(o) && GroupOf(users, o) == None
  {
    var n := LongerThanAll(users);
    o := seq(n, _ => 'x');
    assert !IsWhitespace(o[0]);
  }

  lemma {:induction false} LongerThanAll(users: Groups) returns (n: nat)
    ensures n > 0 && forall group <- users, o <- group :: |o| < n
  {
    n := 1;
    if users != [] {
      var rest := LongerThanAll(users[1..]);
      var first := LongerThanEach(users[0]);
      n := rest + first;
    }
  }

  lemma {:induction false} LongerThanEach(group: seq<string>) returns (n: nat)
    ensures n > 0 && forall o <- group :: |o| < n
  {
    n := 1;
    if group != [] {
      var rest := LongerThanEach(group[1..]);
      n := rest + |group[0]|;
    }
  }

  // A group that prefers a blank owner breaks this: the blank owner written first
  // is read as missing, and the subject's own owner takes its place.
  lemma BlankOwnerDrifts() returns (args: Json, subject: Subject, users: Groups)
    ensures users == [["", "x"]] && args == Object(map["scope" := Object(map["owner" := String("x")])])
    ensures NormalizeArgs(NormalizeArgs(args, subject, users), subject, users) != NormalizeArgs(args, subject, users)
  {
    users := [["", "x"]];
    subject := Subject("s", map[]);
    var scope := Object(map["owner" := String("x")]);
    args := Object(map["scope" := scope]);
    BlankIsPreferred(subject, users);
    assert ReadScope(Lookup(args.fields, "scope")) == ScopeArgs(Some(String("x")), None) by {
      assert "owner"[0] != "agent"[0];
    }
    assert Lookup(args.fields, "class") == None by {
      assert "scope"[0] != "class"[0];
    }
    NormalizeSettlesExactlyWhen(args, subject, users);
  }

  lemma BlankIsPreferred(subject: Subject, users: Groups)
    requires users == [["", "x"]] && subject == Subject("s", map[])
    ensures PersonOwner(ScopeArgs(Some(String("x")), None), subject, users) == Some("")
    ensures !OwnerStands(Some(""), subject, users)
  {
    assert users[0][1] == "x";
    assert GroupOf(users, "x") == Some(users[0]);
    assert "s" !in users[0];
    assert GroupOf(users, "s") == None;
    assert !IsWhitespace("x"[0]);
    assert !IsTuiOwner("");
  }

  // ---- writing and recalling ----

  // Arguments that leave the owner to the subject: no scope object, one that
  // names neither owner nor agent, or an owner that is no usable text.
  predicate LeavesOwnerToSubject(args: ScopeArgs)
  {
    || args.NoScope?
    || (args.owner.None? && ExplicitAgent(args).None?)
    || (args.owner.Some? && !args.owner.value.Null? && (args.owner.value.String? ==> Blank(args.owner.value.s)))
  }

  // Only the scope changes; arguments of a personal class that leave the owner to
  // the subject write under an owner the same subject recalls.
  lemma DefaultWriteIsRecalled(args: Json, subject: Subject, users: Groups)
    requires args.Object? && !IsGlobalClass(Lookup(args.fields, "class"))
    requires LeavesOwnerToSubject(ReadScope(Lookup(args.fields, "scope")))
    ensures
      var after, owner := NormalizeArgs(args, subject, users), CanonicalOwner(users, OwnerKey(subject));
      && after.Object? && after.fields.Keys == args.fields.Keys + {"scope"}
      && (forall k | k in args.fields && k != "scope" :: after.fields[k] == args.fields[k])
      && after.fields["scope"] == WriteScope(Some(owner), PersonAgent(ReadScope(Lookup(args.fields, "scope")), subject))
      && owner in RecallOwners(users, OwnerKey(subject))
  {
    WriteOwnerIsRecalled(users, OwnerKey(subject));
  }
}
