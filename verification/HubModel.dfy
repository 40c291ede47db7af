// The message hub for one participant, as a state machine over the two halves of
// a delivery: the decision taken under the lock, and the send made after it.
module HubModel {
  import opened Prelude

  const BACKLOG_CAPACITY: nat := 64

  type Id = nat

  // What one subscriber was given: the backlog at subscription (`taken`, out of
  // all deliveries `offered` since the subscription before) and the messages
  // `heard` on the topic; `inflight` are the sends outstanding when it subscribed.
  datatype Subscriber = Subscriber(offered: seq<Id>, taken: seq<Id>, heard: seq<Id>, inflight: set<Id>)

  // `since` lists the deliveries decided without a receiver since the last
  // subscription, `unheard` those decided so ever, `direct` the others; `missed`
  // are direct deliveries whose send found no receiver left.
  datatype Hub = Hub(topic: bool, live: set<nat>, subs: seq<Subscriber>, backlog: seq<Id>, pending: set<Id>,
                     since: seq<Id>, unheard: seq<Id>, direct: set<Id>, missed: set<Id>)

  const EMPTY_HUB: Hub := Hub(false, {}, [], [], {}, [], [], {}, {})

  datatype Step = Decide(id: Id) | Send(id: Id) | Subscribe | Leave(i: nat)

  function PushBounded<T>(backlog: seq<T>, id: T): seq<T>
  {
    Last(backlog + [id], BACKLOG_CAPACITY)
  }

  predicate HasReceiver(h: Hub)
  {
    h.topic && h.live != {}
  }

  predicate Decided(h: Hub, id: Id)
  {
    id in h.unheard || id in h.direct
  }

  predicate Enabled(h: Hub, step: Step)
  {
    match step
    case Decide(id) => !Decided(h, id)
    case Send(id) => id in h.pending
    case Subscribe => true
    case Leave(i) => i in h.live
  }

  function Hear(subs: seq<Subscriber>, live: set<nat>, id: Id): (heard: seq<Subscriber>)
    ensures |heard| == |subs|
    ensures forall i | 0 <= i < |subs| ::
              heard[i] == if i in live then subs[i].(heard := subs[i].heard + [id]) else subs[i]
  {
    seq(|subs|, i requires 0 <= i < |subs| => if i in live then subs[i].(heard := subs[i].heard + [id]) else subs[i])
  }

  function Next(h: Hub, step: Step): Hub
    requires Enabled(h, step)
  {
    match step
    case Decide(id) =>
      var sends := if h.topic then h.pending + {id} else h.pending;
      if HasReceiver(h) then h.(pending := sends, direct := h.direct + {id})
      else h.(pending := sends, backlog := PushBounded(h.backlog, id), since := h.since + [id], unheard := h.unheard + [id])
    case Send(id) =>
      h.(pending := h.pending - {id}, subs := Hear(h.subs, h.live, id),
         missed := if h.live == {} && id in h.direct then h.missed + {id} else h.missed)
    case Subscribe =>
      h.(topic := true, live := h.live + {|h.subs|}, backlog := [], since := [],
         subs := h.subs + [Subscriber(h.since, h.backlog, [], h.pending)])
    case Leave(i) => h.(live := h.live - {i})
  }

  // ---- the invariant ----

  function Offered(subs: seq<Subscriber>): seq<Id>
  {
    if subs == [] then [] else Offered(subs[..|subs| - 1]) + subs[|subs| - 1].offered
  }

  // Every delivery decided without a receiver is on offer to exactly one
  // subscriber, or waits for the next one; only the newest of them are kept.
  predicate Partitioned(h: Hub)
  {
    && NoDuplicates(h.unheard) && Offered(h.subs) + h.since == h.unheard
    && h.backlog == Last(h.since, BACKLOG_CAPACITY)
    && forall i | 0 <= i < |h.subs| :: h.subs[i].taken == Last(h.subs[i].offered, BACKLOG_CAPACITY)
  }

  predicate SubscriberOk(h: Hub, s: Subscriber, live: bool)
  {
    && NoDuplicates(s.heard)
    && (forall id | id in s.heard :: Decided(h, id) && id !in h.pending)
    && (forall id | id in s.offered && (id in s.heard || id in h.pending) :: id in s.inflight)
    && (live ==> forall id | id in s.inflight :: id in s.heard || id in h.pending)
  }

  predicate SubscribersOk(h: Hub)
  {
    && (forall i | i in h.live :: i < |h.subs|) && (h.live != {} ==> h.topic)
    && (forall id | id in h.pending :: Decided(h, id))
    && forall i | 0 <= i < |h.subs| :: SubscriberOk(h, h.subs[i], i in h.live)
  }

  predicate Heard(subs: seq<Subscriber>, id: Id)
  {
    exists i | 0 <= i < |subs| :: id in subs[i].heard
  }

  // A direct delivery is outstanding, or was heard, or came when nobody was left.
  predicate DirectOk(h: Hub)
  {
    && (forall id | id in h.direct :: id !in h.unheard)
    && (forall id | id in h.missed :: id in h.direct)
    && forall id | id in h.direct :: DirectFate(h, id)
  }

  predicate DirectFate(h: Hub, id: Id)
  {
    if id in h.pending then id !in h.missed && !Heard(h.subs, id) else (id in h.missed) != Heard(h.subs, id)
  }

  predicate Sound(h: Hub)
  {
    Partitioned(h) && SubscribersOk(h) && DirectOk(h)
  }

  lemma LastPush(s: seq<Id>, id: Id, n: nat)
    requires n > 0
    ensures Last(Last(s, n) + [id], n) == Last(s + [id], n)
  {
  }

  lemma OfferedSnoc(subs: seq<Subscriber>, s: Subscriber)
    ensures Offered(subs + [s]) == Offered(subs) + s.offered
  {
    assert (subs + [s])[..|subs|] == subs;
  }

  lemma {:induction false} OfferedSame(a: seq<Subscriber>, b: seq<Subscriber>)
    requires |a| == |b| && forall i | 0 <= i < |a| :: a[i].offered == b[i].offered
    ensures Offered(a) == Offered(b)
  {
    if a != [] {
      OfferedSame(a[..|a| - 1], b[..|b| - 1]);
    }
  }

  lemma DecidePartitions(h: Hub, id: Id)
    requires Partitioned(h) && !Decided(h, id)
    ensures Partitioned(Next(h, Decide(id)))
  {
    LastPush(h.since, id, BACKLOG_CAPACITY);
    Associative(Offered(h.subs), h.since, [id]);
  }

  lemma SendPartitions(h: Hub, id: Id)
    requires Partitioned(h) && id in h.pending
    ensures Partitioned(Next(h, Send(id)))
  {
    OfferedSame(h.subs, Hear(h.subs, h.live, id));
  }

  lemma SubscribePartitions(h: Hub)
    requires Partitioned(h)
    ensures Partitioned(Next(h, Subscribe))
  {
    OfferedSnoc(h.subs, Subscriber(h.since, h.backlog, [], h.pending));
    assert h.unheard + [] == h.unheard;
  }

  lemma StepPartitions(h: Hub, step: Step)
    requires Partitioned(h) && Enabled(h, step)
    ensures Partitioned(Next(h, step))
  {
    match step
    case Decide(id) => DecidePartitions(h, id);
    case Send(id) => SendPartitions(h, id);
    case Subscribe => SubscribePartitions(h);
    case Leave(i) =>
  }

  lemma SubscribersDecide(h: Hub, id: Id)
    requires SubscribersOk(h) && Partitioned(h) && !Decided(h, id)
    ensures SubscribersOk(Next(h, Decide(id)))
  {
    var n := Next(h, Decide(id));
    assert forall x :: Decided(n, x) <==> Decided(h, x) || x == id;
    forall i | 0 <= i < |n.subs| ensures SubscriberOk(n, n.subs[i], i in n.live) {
      assert SubscriberOk(h, h.subs[i], i in h.live);
      OfferedIsDecided(h, i);
    }
  }

  lemma {:induction false} OfferedContains(subs: seq<Subscriber>, i: nat)
    requires i < |subs|
    ensures forall id | id in subs[i].offered :: id in Offered(subs)
  {
    if i < |subs| - 1 {
      OfferedContains(subs[..|subs| - 1], i);
    }
  }

  lemma OfferedIsDecided(h: Hub, i: nat)
    requires Partitioned(h) && i < |h.subs|
    ensures forall id | id in h.subs[i].offered :: Decided(h, id)
  {
    OfferedContains(h.subs, i);
    assert forall id | id in Offered(h.subs) :: id in Offered(h.subs) + h.since;
  }

  lemma SubscribersSend(h: Hub, id: Id)
    requires SubscribersOk(h) && id in h.pending
    ensures SubscribersOk(Next(h, Send(id)))
  {
    var n := Next(h, Send(id));
    assert forall x :: Decided(n, x) <==> Decided(h, x);
    forall i | 0 <= i < |n.subs| ensures SubscriberOk(n, n.subs[i], i in n.live) {
      assert SubscriberOk(h, h.subs[i], i in h.live);
    }
  }

  lemma SubscribersJoin(h: Hub)
    requires SubscribersOk(h)
    ensures SubscribersOk(Next(h, Subscribe))
  {
    var n := Next(h, Subscribe);
    assert forall x :: Decided(n, x) <==> Decided(h, x);
    forall i | 0 <= i < |n.subs| ensures SubscriberOk(n, n.subs[i], i in n.live) {
      if i < |h.subs| {
        assert SubscriberOk(h, h.subs[i], i in h.live);
      }
    }
  }

  lemma SubscribersLeave(h: Hub, i: nat)
    requires SubscribersOk(h) && i in h.live
    ensures SubscribersOk(Next(h, Leave(i)))
  {
    var n := Next(h, Leave(i));
    assert forall x :: Decided(n, x) <==> Decided(h, x);
    forall j | 0 <= j < |n.subs| ensures SubscriberOk(n, n.subs[j], j in n.live) {
      assert SubscriberOk(h, h.subs[j], j in h.live);
    }
  }

  lemma HeardAfterSend(h: Hub, id: Id, x: Id)
    requires SubscribersOk(h)
    ensures Heard(Hear(h.subs, h.live, id), x) <==> Heard(h.subs, x) || (x == id && h.live != {})
  {
    var after := Hear(h.subs, h.live, id);
    if Heard(h.subs, x) {
      var i :| 0 <= i < |h.subs| && x in h.subs[i].heard;
      assert x in after[i].heard;
    }
    if x == id && h.live != {} {
      var i :| i in h.live;
      assert x in after[i].heard;
    }
  }

  lemma HeardAfterJoin(subs: seq<Subscriber>, s: Subscriber, x: Id)
    requires s.heard == []
    ensures Heard(subs + [s], x) <==> Heard(subs, x)
  {
    if Heard(subs, x) {
      var i :| 0 <= i < |subs| && x in subs[i].heard;
      assert x in (subs + [s])[i].heard;
    }
  }

  lemma NotYetHeard(h: Hub, id: Id)
    requires SubscribersOk(h) && (id in h.pending || !Decided(h, id))
    ensures !Heard(h.subs, id)
  {
    forall i | 0 <= i < |h.subs| ensures id !in h.subs[i].heard {
      assert SubscriberOk(h, h.subs[i], i in h.live);
    }
  }

  lemma StepKeepsDirect(h: Hub, step: Step)
    requires SubscribersOk(h) && DirectOk(h) && Enabled(h, step)
    ensures DirectOk(Next(h, step))
  {
    var n := Next(h, step);
    forall x | x in n.direct ensures DirectFate(n, x) {
      match step
      case Decide(id) =>
        NotYetHeard(h, id);
        assert x in h.direct ==> DirectFate(h, x);
      case Send(id) =>
        HeardAfterSend(h, id, x);
        assert DirectFate(h, x);
      case Subscribe =>
        HeardAfterJoin(h.subs, Subscriber(h.since, h.backlog, [], h.pending), x);
        assert DirectFate(h, x);
      case Leave(i) =>
        assert DirectFate(h, x);
    }
  }

  lemma StepKeepsSound(h: Hub, step: Step)
    requires Sound(h) && Enabled(h, step)
    ensures Sound(Next(h, step))
  {
    StepPartitions(h, step);
    StepKeepsDirect(h, step);
    match step
    case Decide(id) => SubscribersDecide(h, id);
    case Send(id) => SubscribersSend(h, id);
    case Subscribe => SubscribersJoin(h);
    case Leave(i) => SubscribersLeave(h, i);
  }
}
