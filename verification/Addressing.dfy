// How sessions are addressed: the bridge builds a conversation string,
// the channel parses it back, notifications are routed by it and deliveries are
// persisted under a scope derived from it.
module Addressing {
  import opened Prelude
  import opened TextLines

  // ---- topics and conversations ----

  function Topic(agent: string, session: Option<string>): string
  {
    match session
    case None => agent
    case Some(name) => agent + ['/'] + name
  }

  const SCHEME: string := "tui:"

  function Conv(agent: string, session: Option<string>): string
  {
    SCHEME + Topic(agent, session)
  }

  // The part before the first slash.
  function AgentOf(topic: string): string
  {
    match SplitOnce(topic, '/')
    case None => topic
    case Some((agent, _)) => agent
  }

  // The part after it, if there is one.
  function SessionOf(topic: string): Option<string>
  {
    match SplitOnce(topic, '/')
    case None => None
    case Some((_, name)) => Some(name)
  }

  function TopicFromConv(conv: string): (r: Option<string>)
    ensures r.Some? ==> conv == SCHEME + r.value && !Blank(r.value)
  {
    match StripPrefix(conv, SCHEME)
    case None => None
    case Some(topic) => if Blank(topic) then None else Some(topic)
  }

  // A conversation names a topic exactly when it is that topic behind the scheme,
  // and the topic is not blank.
  lemma TopicFromConvIs(conv: string, topic: string)
    ensures TopicFromConv(conv) == Some(topic) <==> conv == "tui:" + topic && !Blank(topic)
  {
    if conv == SCHEME + topic {
      StripScheme(topic);
    }
  }

  predicate PlainAgent(agent: string)
  {
    !Blank(agent) && '/' !in agent
  }

  lemma StripScheme(topic: string)
    ensures StripPrefix(SCHEME + topic, SCHEME) == Some(topic)
  {
    assert SCHEME <= SCHEME + topic;
    assert (SCHEME + topic)[|SCHEME|..] == topic;
  }

  lemma TopicIsNotBlank(agent: string, session: Option<string>)
    requires !Blank(agent)
    ensures !Blank(Topic(agent, session))
  {
    var i :| 0 <= i < |agent| && !IsWhitespace(agent[i]);
    assert Topic(agent, session)[i] == agent[i];
  }

  lemma TopicSplits(agent: string, session: Option<string>)
    requires '/' !in agent
    ensures AgentOf(Topic(agent, session)) == agent && SessionOf(Topic(agent, session)) == session
  {
    if session.Some? {
      SplitOnceAt(agent, '/', session.value);
    }
  }

  // A conversation parses back to the agent and the session it was built from.
  lemma ConvParsesBack(agent: string, session: Option<string>)
    requires PlainAgent(agent)
    ensures TopicFromConv(Conv(agent, session)) == Some(Topic(agent, session))
    ensures AgentOf(Topic(agent, session)) == agent && SessionOf(Topic(agent, session)) == session
  {
    StripScheme(Topic(agent, session));
    TopicIsNotBlank(agent, session);
    TopicSplits(agent, session);
  }

  // The agent comes back exactly when its name has no slash.
  lemma AgentComesBackExactlyWhenSlashFree(agent: string, session: Option<string>)
    ensures AgentOf(Topic(agent, session)) == agent <==> '/' !in agent
  {
    if '/' !in agent {
      TopicSplits(agent, session);
    }
  }

  // Different agents or sessions never share a conversation.
  lemma ConvIsInjective(a: string, s: Option<string>, b: string, t: Option<string>)
    requires '/' !in a && '/' !in b && Conv(a, s) == Conv(b, t)
    ensures a == b && s == t
  {
    StripScheme(Topic(a, s));
    StripScheme(Topic(b, t));
    TopicSplits(a, s);
    TopicSplits(b, t);
  }

  // ---- the subject and scope of a bridged session ----

  datatype Subject = Subject(id: string, attrs: map<string, string>)

  function Attr(s: Subject, key: string): Option<string>
  {
    Lookup(s.attrs, key)
  }

  datatype Scope = Scope(owner: Option<string>, channel: Option<string>, conv: Option<string>,
                         agent: Option<string>, kind: Option<string>)

  // `MemoryScope::from_subject`.
  function ScopeFromSubject(s: Subject): Scope
  {
    Scope(Some(s.id), Attr(s, "channel"), Attr(s, "conv"), Attr(s, "agent"), Attr(s, "channel_kind"))
  }

  function TuiSubject(agent: string, session: Option<string>): Subject
  {
    var attrs := map["agent" := agent, "channel" := "tui", "conv" := Conv(agent, session), "channel_kind" := "direct"];
    Subject(SCHEME + agent, if session.Some? then attrs["tui_session" := session.value] else attrs)
  }

  function TuiScope(agent: string, session: Option<string>): Scope
  {
    ScopeFromSubject(TuiSubject(agent, session)).(owner := Some(SCHEME + agent))
  }

  lemma TuiScopeIs(agent: string, session: Option<string>)
    ensures TuiScope(agent, session)
         == Scope(Some(SCHEME + agent), Some("tui"), Some(Conv(agent, session)), Some(agent), Some("direct"))
    ensures Attr(TuiSubject(agent, session), "conv") == Some(Conv(agent, session))
    ensures TuiSubject(agent, session).id == SCHEME + agent && Attr(TuiSubject(agent, session), "agent") == Some(agent)
    ensures Attr(TuiSubject(agent, session), "tui_session") == session
  {
  }

  // ---- notification routing ----

  // Where a notification goes: the conversation it is filed under, and the topic.
  function NotifyTarget(conv: Option<string>, participant: string): (string, string)
  {
    var main := (SCHEME + participant, participant);
    match conv
    case None => main
    case Some(c) =>
      match TopicFromConv(c)
      case None => main
      case Some(topic) => if AgentOf(topic) != participant then main else (c, topic)
  }

  // Whoever sends it, a notification goes to one of the participant's own topics,
  // under the conversation that belongs to that topic.
  lemma NotifyStaysWithParticipant(conv: Option<string>, participant: string)
    requires '/' !in participant
    ensures
      var (target, topic) := NotifyTarget(conv, participant);
      target == SCHEME + topic && AgentOf(topic) == participant
  {
  }

  // From a bridged session it goes to that very session for its own agent, and to
  // the main session of any other.
  lemma NotifyFollowsTheBridge(agent: string, session: Option<string>, participant: string)
    requires PlainAgent(agent)
    ensures NotifyTarget(Attr(TuiSubject(agent, session), "conv"), participant)
         == if participant == agent then (Conv(agent, session), Topic(agent, session))
            else (Conv(participant, None), Topic(participant, None))
  {
    TuiScopeIs(agent, session);
    ConvParsesBack(agent, session);
  }

  // Exactly: into a conversation of the participant's own as it is, and from
  // anywhere else to the main session.
  lemma NotifyIsExact(conv: Option<string>, participant: string)
    requires PlainAgent(participant)
    ensures forall topic :: conv == Some("tui:" + topic) && AgentOf(topic) == participant ==>
                              NotifyTarget(conv, participant) == ("tui:" + topic, topic)
    ensures (forall topic :: conv == Some("tui:" + topic) ==> AgentOf(topic) != participant) ==>
              NotifyTarget(conv, participant) == ("tui:" + participant, participant)
  {
    forall topic | conv == Some(SCHEME + topic) && AgentOf(topic) == participant
      ensures NotifyTarget(conv, participant) == (SCHEME + topic, topic)
    {
      StripScheme(topic);
      AgentIsPart(topic);
    }
    if conv.Some? && TopicFromConv(conv.value).Some? {
      assert conv == Some(SCHEME + TopicFromConv(conv.value).value);
    }
  }

  lemma AgentIsPart(topic: string)
    ensures Blank(topic) ==> Blank(AgentOf(topic))
  {
    var agent := AgentOf(topic);
    assert agent <= topic;
    assert forall i | 0 <= i < |agent| :: agent[i] == topic[i];
  }

  // ---- the scope a delivery is persisted under ----

  datatype Sent = Sent(channel: string, conv: string, id: string)

  function TuiAgent(conv: string): Option<string>
  {
    match StripPrefix(conv, SCHEME)
    case None => None
    case Some(topic) => if Blank(AgentOf(topic)) then None else Some(AgentOf(topic))
  }

  function TargetOwner(sent: Sent, agent: string): string
  {
    if sent.channel == "tui" then SCHEME + (if TuiAgent(sent.conv).Some? then TuiAgent(sent.conv).value else agent)
    else sent.conv
  }

  function TargetScope(ctx: Subject, sent: Sent, agent: string): Scope
  {
    if sent.channel == "tui" then
      Scope(Some(TargetOwner(sent, agent)), Some("tui"), Some(sent.conv), Or(TuiAgent(sent.conv), Some(agent)), Some("direct"))
    else
      var scope := ScopeFromSubject(ctx);
      Scope(Some(sent.conv), Some(sent.channel), Some(sent.conv), Or(scope.agent, Some(agent)), Or(scope.kind, Some("direct")))
  }

  lemma TuiAgentOf(agent: string, session: Option<string>)
    ensures '/' !in agent ==> TuiAgent(Conv(agent, session)) == if Blank(agent) then None else Some(agent)
    ensures '/' in agent ==> TuiAgent(Conv(agent, session)) != Some(agent)
  {
    StripScheme(Topic(agent, session));
    if '/' !in agent {
      TopicSplits(agent, session);
    }
  }

  lemma TuiTargetIs(ctx: Subject, conv: string, id: string, self: string)
    ensures
      var named, sent := Or(TuiAgent(conv), Some(self)).value, Sent("tui", conv, id);
      && TargetOwner(sent, self) == SCHEME + named
      && TargetScope(ctx, sent, self) == Scope(Some(SCHEME + named), Some("tui"), Some(conv), Some(named), Some("direct"))
  {
  }

  // On any other channel a delivery is filed by its conversation: the owner is the
  // conversation, and only the sender's agent and kind are taken from the subject.
  lemma OtherChannelsFileByConversation(ctx: Subject, sent: Sent, self: string)
    requires sent.channel != "tui"
    ensures
      var scope := TargetScope(ctx, sent, self);
      && TargetOwner(sent, self) == sent.conv
      && scope.owner == Some(sent.conv) && scope.channel == Some(sent.channel) && scope.conv == Some(sent.conv)
      && scope.agent == Some(if "agent" in ctx.attrs then ctx.attrs["agent"] else self)
      && scope.kind == Some(if "channel_kind" in ctx.attrs then ctx.attrs["channel_kind"] else "direct")
  {
  }

  // Deliveries filed together were sent on the same channel and conversation.
  lemma FiledTogetherSentTogether(ctx: Subject, sent: Sent, other: Subject, also: Sent, self: string)
    requires TargetScope(ctx, sent, self) == TargetScope(other, also, self)
    ensures sent.channel == also.channel && sent.conv == also.conv && TargetOwner(sent, self) == TargetOwner(also, self)
  {
  }

  predicate FiledWithTheBridge(ctx: Subject, agent: string, session: Option<string>, id: string, self: string)
  {
    var sent := Sent("tui", Conv(agent, session), id);
    TargetScope(ctx, sent, self) == TuiScope(agent, session) && TargetOwner(sent, self) == SCHEME + agent
  }

  lemma FiledExactlyUnder(ctx: Subject, agent: string, session: Option<string>, id: string, self: string)
    ensures FiledWithTheBridge(ctx, agent, session, id, self)
       <==> Or(TuiAgent(Conv(agent, session)), Some(self)) == Some(agent)
  {
    TuiScopeIs(agent, session);
    TuiTargetIs(ctx, Conv(agent, session), id, self);
  }

  lemma SomeSinkFilesElsewhere(ctx: Subject, agent: string, session: Option<string>, id: string)
    requires !PlainAgent(agent)
    ensures exists self :: !FiledWithTheBridge(ctx, agent, session, id, self)
  {
    var other := agent + ['x'];
    NamesAnother(agent, session, other);
    FiledExactlyUnder(ctx, agent, session, id, other);
  }

  lemma NamesAnother(agent: string, session: Option<string>, other: string)
    requires !PlainAgent(agent) && |other| != |agent|
    ensures Or(TuiAgent(Conv(agent, session)), Some(other)) != Some(agent)
  {
    TuiAgentOf(agent, session);
  }

  // A delivery into a bridged session is filed under the owner and scope the
  // bridge itself uses, whichever agent the sink belongs to, exactly when the
  // agent's name is not blank and has no slash.
  lemma DeliveryIsFiledWithTheBridge(ctx: Subject, agent: string, session: Option<string>, id: string)
    ensures (forall self :: FiledWithTheBridge(ctx, agent, session, id, self)) <==> PlainAgent(agent)
  {
    if PlainAgent(agent) {
      TuiAgentOf(agent, session);
      forall self ensures FiledWithTheBridge(ctx, agent, session, id, self) {
        FiledExactlyUnder(ctx, agent, session, id, self);
      }
    } else {
      SomeSinkFilesElsewhere(ctx, agent, session, id);
    }
  }
}
