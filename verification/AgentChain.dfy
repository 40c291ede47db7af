// Agents messaging agents: how far a chain of messages can go, and what each
// hop inherits from the subject that started it.
module AgentChain {
  import opened Prelude
  import opened Addressing
  import opened MemoryIdentity
  import opened ArgumentRewrite
  import opened Notice

  const DEPTH_ATTR: string := "agent_message_depth"
  const FROM_ATTR: string := "agent_message_from"
  const AGENT_SCHEME: string := "agent:"
  const DEFAULT_MAX_DEPTH: nat := 4

  datatype HopError = ToSelf | DepthCap | UnknownAgent

  // How many hops a subject says it is away from its origin.
  function Depth(s: Subject): nat
  {
    var text := Attr(s, DEPTH_ATTR);
    if text.Some? && ParseUsize(text.value).Some? then ParseUsize(text.value).value else 0
  }

  // The human owner a chain is rooted in, if it is rooted in one.
  function DeriveOrigin(caller: Subject): Option<string>
  {
    var origin := Attr(caller, ORIGIN_OWNER_ATTR);
    if origin.Some? then origin
    else if StartsWith(caller.id, AGENT_SCHEME) then None
    else Some(caller.id)
  }

  function TuiParticipant(s: Subject): Option<string>
  {
    var rest := StripPrefix(s.id, SCHEME);
    if rest.Some? && !Blank(rest.value) then rest else None
  }

  // The channel context a hop inherits.
  datatype Context = Context(channel: Option<string>, conv: Option<string>, kind: Option<string>, participant: Option<string>)

  function ContextOf(s: Subject): Context
  {
    var tui := TuiParticipant(s);
    Context(Or(Attr(s, "channel"), if tui.Some? then Some("tui") else None),
            Or(Attr(s, "conv"), if tui.Some? then Some(SCHEME + tui.value) else None),
            Or(Attr(s, "channel_kind"), if tui.Some? then Some("direct") else None),
            Or(Attr(s, "participant_id"), tui))
  }

  function WithAttr(attrs: map<string, string>, key: string, value: Option<string>): map<string, string>
  {
    if value.Some? then attrs[key := value.value] else attrs
  }

  // Optional attributes added one after the other.
  function WithAttrs(attrs: map<string, string>, keys: seq<string>, values: seq<Option<string>>): map<string, string>
    requires |keys| == |values|
  {
    if keys == [] then attrs
    else WithAttr(WithAttrs(attrs, keys[..|keys| - 1], values[..|keys| - 1]), keys[|keys| - 1], values[|keys| - 1])
  }

  const INHERITED: seq<string> := ["channel", "conv", "channel_kind", "participant_id", ORIGIN_OWNER_ATTR]

  function HopBase(self: string, peer: string, depth: nat): map<string, string>
  {
    map["agent" := peer, FROM_ATTR := self, DEPTH_ATTR := Decimal(depth)]
  }

  function HopAttrs(ctx: Subject, self: string, peer: string): map<string, string>
  {
    var c := ContextOf(ctx);
    WithAttrs(HopBase(self, peer, Depth(ctx) + 1), INHERITED, [c.channel, c.conv, c.kind, c.participant, DeriveOrigin(ctx)])
  }

  // The subject the peer runs under, or why the message is refused.
  function Hop(ctx: Subject, self: string, to: string, directory: set<string>, maxDepth: nat): Result<Subject, HopError>
  {
    if to == self then Err(ToSelf)
    else if Depth(ctx) >= maxDepth then Err(DepthCap)
    else if to !in directory then Err(UnknownAgent)
    else Ok(Subject(AGENT_SCHEME + to, HopAttrs(ctx, self, to)))
  }

  lemma {:induction false} WithAttrsLook(attrs: map<string, string>, keys: seq<string>, values: seq<Option<string>>, i: nat)
    requires |keys| == |values| && i < |keys| && NoDuplicates(keys) && keys[i] !in attrs
    ensures Lookup(WithAttrs(attrs, keys, values), keys[i]) == values[i]
  {
    var n := |keys| - 1;
    var inner := WithAttrs(attrs, keys[..n], values[..n]);
    if i < n {
      WithAttrsLook(attrs, keys[..n], values[..n], i);
    } else {
      WithAttrsKeep(attrs, keys[..n], values[..n], keys[n]);
    }
  }

  lemma {:induction false} WithAttrsKeep(attrs: map<string, string>, keys: seq<string>, values: seq<Option<string>>, other: string)
    requires |keys| == |values| && other !in keys
    ensures Lookup(WithAttrs(attrs, keys, values), other) == Lookup(attrs, other)
  {
    if keys != [] {
      WithAttrsKeep(attrs, keys[..|keys| - 1], values[..|keys| - 1], other);
    }
  }

  // The attribute names all have different lengths.
  lemma NamesDiffer()
    ensures |INHERITED| == 5
    ensures |INHERITED[0]| == 7 && |INHERITED[1]| == 4 && |INHERITED[2]| == 12 && |INHERITED[3]| == 14 && |INHERITED[4]| == 26
    ensures |"agent"| == 5 && |FROM_ATTR| == 18 && |DEPTH_ATTR| == 19
  {
  }

  lemma InheritedIsFresh(self: string, peer: string, depth: nat)
    ensures NoDuplicates(INHERITED) && forall i | 0 <= i < 5 :: INHERITED[i] !in HopBase(self, peer, depth)
    ensures DEPTH_ATTR !in INHERITED && Lookup(HopBase(self, peer, depth), DEPTH_ATTR) == Some(Decimal(depth))
  {
    NamesDiffer();
    forall i | 0 <= i < 5 ensures INHERITED[i] !in HopBase(self, peer, depth) && INHERITED[i] != DEPTH_ATTR {
    }
  }

  lemma InheritedAt(ctx: Subject, self: string, peer: string, i: nat)
    requires i < 5
    ensures
      var c := ContextOf(ctx);
      Lookup(HopAttrs(ctx, self, peer), INHERITED[i]) == [c.channel, c.conv, c.kind, c.participant, DeriveOrigin(ctx)][i]
  {
    var c := ContextOf(ctx);
    InheritedIsFresh(self, peer, Depth(ctx) + 1);
    WithAttrsLook(HopBase(self, peer, Depth(ctx) + 1), INHERITED, [c.channel, c.conv, c.kind, c.participant, DeriveOrigin(ctx)], i);
  }

  // What the peer's subject says of its depth, its origin and its channel.
  lemma HopReads(ctx: Subject, self: string, peer: string)
    ensures
      var h := Subject(AGENT_SCHEME + peer, HopAttrs(ctx, self, peer));
      && Attr(h, DEPTH_ATTR) == Some(Decimal(Depth(ctx) + 1))
      && Attr(h, ORIGIN_OWNER_ATTR) == DeriveOrigin(ctx)
      && Context(Attr(h, "channel"), Attr(h, "conv"), Attr(h, "channel_kind"), Attr(h, "participant_id")) == ContextOf(ctx)
  {
    var c := ContextOf(ctx);
    InheritedIsFresh(self, peer, Depth(ctx) + 1);
    WithAttrsKeep(HopBase(self, peer, Depth(ctx) + 1), INHERITED, [c.channel, c.conv, c.kind, c.participant, DeriveOrigin(ctx)], DEPTH_ATTR);
    InheritedAt(ctx, self, peer, 0);
    InheritedAt(ctx, self, peer, 1);
    InheritedAt(ctx, self, peer, 2);
    InheritedAt(ctx, self, peer, 3);
    InheritedAt(ctx, self, peer, 4);
  }

  lemma PeerIsNoTui(peer: string)
    ensures StripPrefix(AGENT_SCHEME + peer, SCHEME).None? && StartsWith(AGENT_SCHEME + peer, AGENT_SCHEME)
  {
    assert (AGENT_SCHEME + peer)[0] == 'a' && SCHEME[0] == 't';
  }

  // One hop is one deeper, and hands on origin and channel context unchanged.
  lemma HopInherits(ctx: Subject, self: string, to: string, directory: set<string>, maxDepth: nat)
    requires maxDepth < USIZE_LIMIT && Hop(ctx, self, to, directory, maxDepth).Ok?
    ensures
      var h := Hop(ctx, self, to, directory, maxDepth).value;
      && Depth(h) == Depth(ctx) + 1 <= maxDepth
      && DeriveOrigin(h) == DeriveOrigin(ctx)
      && ContextOf(h) == ContextOf(ctx)
      && (DeriveOrigin(ctx).Some? ==> OwnerKey(h) == DeriveOrigin(ctx).value)
  {
    HopReads(ctx, self, to);
    PeerIsNoTui(to);
    ParseDecimal(Depth(ctx) + 1);
  }

  // A message is refused for its own sender first, then for the depth, then for a
  // peer nobody knows, and for nothing else.
  lemma HopIsRefusedExactlyWhen(ctx: Subject, self: string, to: string, directory: set<string>, maxDepth: nat)
    ensures
      var h := Hop(ctx, self, to, directory, maxDepth);
      && (h == Err(ToSelf) <==> to == self)
      && (h == Err(DepthCap) <==> to != self && Depth(ctx) >= maxDepth)
      && (h == Err(UnknownAgent) <==> to != self && Depth(ctx) < maxDepth && to !in directory)
      && (h.Ok? <==> to != self && Depth(ctx) < maxDepth && to in directory)
  {
  }

  // The peer runs as itself, and is told who sent the message.
  lemma HopNamesItsEnds(ctx: Subject, self: string, to: string, directory: set<string>, maxDepth: nat)
    requires Hop(ctx, self, to, directory, maxDepth).Ok?
    ensures
      var h := Hop(ctx, self, to, directory, maxDepth).value;
      && h.id == "agent:" + to && Attr(h, "agent") == Some(to) && Attr(h, FROM_ATTR) == Some(self)
      && AgentFromSubject(h) == Some(to)
  {
    var c := ContextOf(ctx);
    var values := [c.channel, c.conv, c.kind, c.participant, DeriveOrigin(ctx)];
    NamesDiffer();
    WithAttrsKeep(HopBase(self, to, Depth(ctx) + 1), INHERITED, values, "agent");
    WithAttrsKeep(HopBase(self, to, Depth(ctx) + 1), INHERITED, values, FROM_ATTR);
  }

  // A subject that does not say how deep it is, or says it in no number, is at the start.
  lemma DepthIs(s: Subject)
    ensures Depth(s) == if DEPTH_ATTR in s.attrs && ParseUsize(s.attrs[DEPTH_ATTR]).Some? then ParseUsize(s.attrs[DEPTH_ATTR]).value else 0
    ensures DEPTH_ATTR in s.attrs && !AllDigits(s.attrs[DEPTH_ATTR]) && s.attrs[DEPTH_ATTR][0] != '+' ==> Depth(s) == 0
  {
  }

  // A subject's own attributes are its context. Only where one is missing does a
  // terminal participant's identity stand in for it.
  lemma ContextIs(s: Subject)
    ensures
      var c, tui := ContextOf(s), exists p :: s.id == "tui:" + p && !Blank(p);
      && ("channel" in s.attrs ==> c.channel == Some(s.attrs["channel"]))
      && ("conv" in s.attrs ==> c.conv == Some(s.attrs["conv"]))
      && ("channel_kind" in s.attrs ==> c.kind == Some(s.attrs["channel_kind"]))
      && ("participant_id" in s.attrs ==> c.participant == Some(s.attrs["participant_id"]))
      && ("channel" !in s.attrs ==> c.channel == if tui then Some("tui") else None)
      && ("conv" !in s.attrs ==> c.conv == if tui then Some(s.id) else None)
      && ("channel_kind" !in s.attrs ==> c.kind == if tui then Some("direct") else None)
      && ("participant_id" !in s.attrs ==> c.participant == if tui then Some(s.id[|"tui:"|..]) else None)
  {
    forall p | s.id == SCHEME + p ensures StripPrefix(s.id, SCHEME) == Some(p) {
      StripScheme(p);
    }
    if TuiParticipant(s).Some? {
      assert s.id == "tui:" + TuiParticipant(s).value;
    }
  }

  // ---- chains ----

  datatype Message = Message(sender: string, to: string)

  // Each message is sent from within the run the one before it started.
  predicate IsChain(ctx: Subject, messages: seq<Message>, directory: set<string>, maxDepth: nat)
    decreases |messages|
  {
    messages != [] ==>
      var h := Hop(ctx, messages[0].sender, messages[0].to, directory, maxDepth);
      h.Ok? && IsChain(h.value, messages[1..], directory, maxDepth)
  }

  function EndOf(ctx: Subject, messages: seq<Message>, directory: set<string>, maxDepth: nat): Subject
    requires IsChain(ctx, messages, directory, maxDepth)
    decreases |messages|
  {
    if messages == [] then ctx
    else EndOf(Hop(ctx, messages[0].sender, messages[0].to, directory, maxDepth).value, messages[1..], directory, maxDepth)
  }

  // A chain has at most as many hops as the cap leaves, and the run at its end
  // still carries the origin and the channel context of the subject it started from.
  lemma {:induction false} ChainIsBoundedAndInherits(ctx: Subject, messages: seq<Message>, directory: set<string>, maxDepth: nat)
    requires maxDepth < USIZE_LIMIT && IsChain(ctx, messages, directory, maxDepth)
    ensures messages != [] ==> Depth(ctx) + |messages| <= maxDepth
    ensures
      var end := EndOf(ctx, messages, directory, maxDepth);
      && Depth(end) == Depth(ctx) + |messages|
      && DeriveOrigin(end) == DeriveOrigin(ctx) && ContextOf(end) == ContextOf(ctx)
    decreases |messages|
  {
    if messages != [] {
      HopInherits(ctx, messages[0].sender, messages[0].to, directory, maxDepth);
      ChainIsBoundedAndInherits(Hop(ctx, messages[0].sender, messages[0].to, directory, maxDepth).value, messages[1..], directory, maxDepth);
    }
  }

  // From a person's own session a chain is at most four hops long, and every run
  // in it recalls that person's memory, whichever identity they started with.
  lemma ChainRecallsItsPerson(ctx: Subject, messages: seq<Message>, directory: set<string>, users: Groups)
    requires Attr(ctx, DEPTH_ATTR).None? && Attr(ctx, ORIGIN_OWNER_ATTR).None? && !StartsWith(ctx.id, AGENT_SCHEME)
    requires messages != [] && IsChain(ctx, messages, directory, DEFAULT_MAX_DEPTH)
    ensures |messages| <= 4
    ensures
      var end := EndOf(ctx, messages, directory, DEFAULT_MAX_DEPTH);
      RecallOwners(users, OwnerKey(end)) == RecallOwners(users, ctx.id)
  {
    ChainIsBoundedAndInherits(ctx, messages, directory, DEFAULT_MAX_DEPTH);
    EndOwner(ctx, messages, directory, DEFAULT_MAX_DEPTH);
  }

  lemma {:induction false} EndOwner(ctx: Subject, messages: seq<Message>, directory: set<string>, maxDepth: nat)
    requires maxDepth < USIZE_LIMIT && messages != [] && IsChain(ctx, messages, directory, maxDepth) && DeriveOrigin(ctx).Some?
    ensures OwnerKey(EndOf(ctx, messages, directory, maxDepth)) == DeriveOrigin(ctx).value
    decreases |messages|
  {
    var h := Hop(ctx, messages[0].sender, messages[0].to, directory, maxDepth).value;
    HopInherits(ctx, messages[0].sender, messages[0].to, directory, maxDepth);
    if |messages| > 1 {
      EndOwner(h, messages[1..], directory, maxDepth);
    } else {
      assert messages[1..] == [];
    }
  }

  // A chain that an agent starts by itself acts for nobody: what its runs recall is
  // what they wrote themselves.
  lemma {:induction false} AgentsChainForNobody(ctx: Subject, messages: seq<Message>, directory: set<string>, maxDepth: nat)
    requires maxDepth < USIZE_LIMIT && messages != [] && IsChain(ctx, messages, directory, maxDepth)
    requires StartsWith(ctx.id, "agent:") && ORIGIN_OWNER_ATTR !in ctx.attrs
    ensures
      var end := EndOf(ctx, messages, directory, maxDepth);
      ORIGIN_OWNER_ATTR !in end.attrs && OwnerKey(end) == "agent:" + messages[|messages| - 1].to
    decreases |messages|
  {
    var h := Hop(ctx, messages[0].sender, messages[0].to, directory, maxDepth).value;
    HopReads(ctx, messages[0].sender, messages[0].to);
    if |messages| > 1 {
      AgentsChainForNobody(h, messages[1..], directory, maxDepth);
    } else {
      assert messages[1..] == [];
    }
  }
}
