// Recording deliveries in the recipient's session, each message once.
module DeliverySink {
  import opened Addressing

  datatype Message = ChannelOutbound(conv: string, body: string, channel: string, messageId: string) | Other(text: string)

  datatype Key = Key(owner: string, scope: Scope)

  type Sessions = map<Key, seq<Message>>

  predicate HasOutbound(messages: seq<Message>, id: string)
  {
    exists m <- messages :: m.ChannelOutbound? && m.messageId == id
  }

  // How often a session records message `id`.
  function Records(messages: seq<Message>, id: string): nat
  {
    if messages == [] then 0
    else Records(messages[..|messages| - 1], id) + IsRecord(messages[|messages| - 1], id)
  }

  function IsRecord(m: Message, id: string): nat
  {
    if m.ChannelOutbound? && m.messageId == id then 1 else 0
  }

  // One delivery: what was sent, under whose subject, and how the store behaves.
  datatype Delivery = Delivery(ctx: Subject, sent: Sent, body: string, note: string, appendRecord: bool,
                               findFails: bool, saveFails: bool)

  function KeyOf(d: Delivery, agent: string): Key
  {
    Key(TargetOwner(d.sent, agent), TargetScope(d.ctx, d.sent, agent))
  }

  function MessagesOf(sessions: Sessions, key: Key): seq<Message>
  {
    if key in sessions then sessions[key] else []
  }

  function Outbound(d: Delivery): Message
  {
    ChannelOutbound(d.sent.conv, d.body, d.sent.channel, d.sent.id)
  }

  function Appended(messages: seq<Message>, d: Delivery): seq<Message>
  {
    messages + [Outbound(d)] + (if d.appendRecord then [Other(d.note)] else [])
  }

  // The store after one delivery; looking a session up creates it.
  function Persisted(sessions: Sessions, d: Delivery, agent: string): Sessions
  {
    if d.findFails then sessions
    else
      var key := KeyOf(d, agent);
      var messages := MessagesOf(sessions, key);
      if HasOutbound(messages, d.sent.id) || d.saveFails then sessions[key := messages]
      else sessions[key := Appended(messages, d)]
  }

  class Sink {
    const agent: string
    var sessions: Sessions

    constructor (agent: string, sessions: Sessions)
      ensures this.agent == agent && this.sessions == sessions
    {
      this.agent, this.sessions := agent, sessions;
    }

    method PersistDelivery(d: Delivery)
      modifies `sessions
      ensures sessions == Persisted(old(sessions), d, agent)
    {
      if d.findFails {
        return;
      }
      var key := KeyOf(d, agent);
      if key !in sessions {
        sessions := sessions[key := []];
      }
      var messages := sessions[key];
      if HasOutbound(messages, d.sent.id) {
        return;
      }
      messages := messages + [Outbound(d)];
      if d.appendRecord {
        messages := messages + [Other(d.note)];
      }
      assert messages == Appended(sessions[key], d);
      if d.saveFails {
        return;
      }
      sessions := sessions[key := messages];
    }
  }

  // ---- each message at most once ----

  lemma {:induction false} RecordsCount(messages: seq<Message>, id: string)
    ensures HasOutbound(messages, id) <==> Records(messages, id) > 0
    decreases |messages|
  {
    if messages != [] {
      var front, last := messages[..|messages| - 1], messages[|messages| - 1];
      RecordsCount(front, id);
      assert messages == front + [last];
    }
  }

  lemma RecordsSnoc(messages: seq<Message>, m: Message, id: string)
    ensures Records(messages + [m], id) == Records(messages, id) + IsRecord(m, id)
  {
    assert (messages + [m])[..|messages|] == messages;
  }

  lemma AppendedRecords(messages: seq<Message>, d: Delivery, id: string)
    ensures Records(Appended(messages, d), id) == Records(messages, id) + (if d.sent.id == id then 1 else 0)
  {
    RecordsSnoc(messages, Outbound(d), id);
    if d.appendRecord {
      RecordsSnoc(messages + [Outbound(d)], Other(d.note), id);
    } else {
      assert messages + [Outbound(d)] + [] == messages + [Outbound(d)];
    }
  }

  ghost predicate AtMostOnce(sessions: Sessions)
  {
    forall key, id :: Records(MessagesOf(sessions, key), id) <= 1
  }

  lemma DeliveryRecords(sessions: Sessions, d: Delivery, agent: string, key: Key, id: string)
    ensures
      var before, after := MessagesOf(sessions, key), MessagesOf(Persisted(sessions, d, agent), key);
      && before <= after
      && Records(after, id) == Records(before, id)
           + (if key == KeyOf(d, agent) && id == d.sent.id && Records(before, id) == 0 && !d.findFails && !d.saveFails then 1 else 0)
  {
    var before := MessagesOf(sessions, key);
    RecordsCount(before, d.sent.id);
    AppendedRecords(before, d, id);
  }

  // A delivery that meets no failure and was not recorded leaves its message as it
  // was sent, with the note behind it if one is due, at the end of its session;
  // nothing else in the store changes but that a session looked up now exists.
  lemma DeliveryAppends(sessions: Sessions, d: Delivery, agent: string, key: Key)
    ensures
      var before, after := MessagesOf(sessions, key), MessagesOf(Persisted(sessions, d, agent), key);
      var recorded := ChannelOutbound(d.sent.conv, d.body, d.sent.channel, d.sent.id);
      after == if key != Key(TargetOwner(d.sent, agent), TargetScope(d.ctx, d.sent, agent)) || d.findFails || d.saveFails
                  || Records(before, d.sent.id) > 0 then before
               else if d.appendRecord then before + [recorded, Other(d.note)]
               else before + [recorded]
    ensures Persisted(sessions, d, agent).Keys == sessions.Keys + if d.findFails then {} else {KeyOf(d, agent)}
  {
    RecordsCount(MessagesOf(sessions, key), d.sent.id);
  }

  function PersistAll(sessions: Sessions, ds: seq<Delivery>, agent: string): Sessions
    decreases |ds|
  {
    if ds == [] then sessions else PersistAll(Persisted(sessions, ds[0], agent), ds[1..], agent)
  }

  lemma {:induction false} RecordsAreKept(sessions: Sessions, ds: seq<Delivery>, agent: string, key: Key)
    ensures MessagesOf(sessions, key) <= MessagesOf(PersistAll(sessions, ds, agent), key)
    decreases |ds|
  {
    if ds != [] {
      DeliveryRecords(sessions, ds[0], agent, key, "");
      RecordsAreKept(Persisted(sessions, ds[0], agent), ds[1..], agent, key);
    }
  }

  // Over any sequence of deliveries, taken one at a time, no session records a
  // message id twice, and none loses anything it holds.
  lemma {:induction false} RecordedOnce(sessions: Sessions, ds: seq<Delivery>, agent: string)
    requires AtMostOnce(sessions)
    ensures AtMostOnce(PersistAll(sessions, ds, agent))
    ensures forall key :: MessagesOf(sessions, key) <= MessagesOf(PersistAll(sessions, ds, agent), key)
    decreases |ds|
  {
    if ds != [] {
      var next := Persisted(sessions, ds[0], agent);
      forall key, id ensures Records(MessagesOf(next, key), id) <= 1 {
        DeliveryRecords(sessions, ds[0], agent, key, id);
      }
      RecordedOnce(next, ds[1..], agent);
    }
    forall key ensures MessagesOf(sessions, key) <= MessagesOf(PersistAll(sessions, ds, agent), key) {
      RecordsAreKept(sessions, ds, agent, key);
    }
  }

  // Once a delivery of a message has gone through without a store failure its
  // session records it.
  lemma {:induction false} DeliveredIsRecorded(sessions: Sessions, ds: seq<Delivery>, agent: string, i: nat)
    requires AtMostOnce(sessions) && i < |ds| && !ds[i].findFails && !ds[i].saveFails
    ensures Records(MessagesOf(PersistAll(sessions, ds, agent), KeyOf(ds[i], agent)), ds[i].sent.id) == 1
    decreases |ds|
  {
    var next := Persisted(sessions, ds[0], agent);
    forall key, id ensures Records(MessagesOf(next, key), id) <= 1 {
      DeliveryRecords(sessions, ds[0], agent, key, id);
    }
    if i == 0 {
      var key, id := KeyOf(ds[0], agent), ds[0].sent.id;
      DeliveryRecords(sessions, ds[0], agent, key, id);
      RecordsStay(next, ds[1..], agent, key, id);
    } else {
      DeliveredIsRecorded(next, ds[1..], agent, i - 1);
    }
  }

  lemma {:induction false} RecordsStay(sessions: Sessions, ds: seq<Delivery>, agent: string, key: Key, id: string)
    requires Records(MessagesOf(sessions, key), id) == 1
    ensures Records(MessagesOf(PersistAll(sessions, ds, agent), key), id) == 1
    decreases |ds|
  {
    if ds != [] {
      DeliveryRecords(sessions, ds[0], agent, key, id);
      RecordsStay(Persisted(sessions, ds[0], agent), ds[1..], agent, key, id);
    }
  }
}
