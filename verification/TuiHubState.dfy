// The hub as the server keeps it: a topic and a backlog per participant, both
// mutable, with the sender handle outliving the lock it was cloned under.
module TuiHubState {
  import opened Prelude
  import opened HubModel
  import opened HubTheorems

  datatype TuiDelivery = TuiDelivery(from: string, body: string)

  // One participant's share of the hub.
  datatype View = View(topic: bool, next: nat, receivers: map<nat, seq<TuiDelivery>>, backlog: seq<TuiDelivery>)

  const EMPTY_VIEW: View := View(false, 0, map[], [])

  function DecidedView(v: View, delivery: TuiDelivery): View
  {
    if v.topic && v.receivers != map[] then v else v.(backlog := PushBounded(v.backlog, delivery))
  }

  function SentView(v: View, delivery: TuiDelivery): View
  {
    v.(receivers := map r | r in v.receivers :: v.receivers[r] + [delivery])
  }

  function JoinedView(v: View): View
  {
    View(true, v.next + 1, v.receivers[v.next := []], [])
  }

  function LeftView(v: View, r: nat): View
  {
    v.(receivers := v.receivers - {r})
  }

  function DeliveredView(v: View, delivery: TuiDelivery): View
  {
    var decided := DecidedView(v, delivery);
    if v.topic then SentView(decided, delivery) else decided
  }

  // A broadcast sender; a receiver is the messages sent since it subscribed.
  class Topic {
    var receivers: map<nat, seq<TuiDelivery>>
    var nextReceiver: nat

    predicate Valid()
      reads this
    {
      forall r | r in receivers :: r < nextReceiver
    }

    constructor ()
      ensures Valid() && receivers == map[] && nextReceiver == 0
    {
      receivers, nextReceiver := map[], 0;
    }

    method Subscribe() returns (r: nat)
      requires Valid()
      modifies this
      ensures Valid() && r !in old(receivers) && receivers == old(receivers)[r := []]
      ensures r == old(nextReceiver) && nextReceiver == r + 1
    {
      r := nextReceiver;
      receivers := receivers[r := []];
      nextReceiver := nextReceiver + 1;
    }

    method DropReceiver(r: nat)
      requires Valid()
      modifies this
      ensures Valid() && receivers == old(receivers) - {r} && nextReceiver == old(nextReceiver)
    {
      receivers := receivers - {r};
    }

    method Send(delivery: TuiDelivery)
      requires Valid()
      modifies this
      ensures Valid() && nextReceiver == old(nextReceiver)
      ensures receivers == old(map r | r in receivers :: receivers[r] + [delivery])
    {
      receivers := map r | r in receivers :: receivers[r] + [delivery];
    }
  }

  class TuiHub {
    var topics: map<string, Topic>
    var backlog: map<string, seq<TuiDelivery>>

    predicate Valid()
      reads this, topics.Values
    {
      && (forall p | p in topics :: topics[p].Valid())
      && (forall p, q | p in topics && q in topics && p != q :: topics[p] != topics[q])
    }

    function Waiting(participant: string): seq<TuiDelivery>
      reads this
    {
      if participant in backlog then backlog[participant] else []
    }

    function ViewOf(participant: string): View
      reads this, topics.Values
    {
      if participant in topics then
        var topic := topics[participant];
        View(true, topic.nextReceiver, topic.receivers, Waiting(participant))
      else View(false, 0, map[], Waiting(participant))
    }

    predicate Listening(participant: string)
      reads this, topics.Values
    {
      participant in topics && topics[participant].receivers != map[]
    }

    constructor ()
      ensures Valid() && topics == map[] && backlog == map[] && forall p :: ViewOf(p) == EMPTY_VIEW
    {
      topics, backlog := map[], map[];
    }

    // Joins the topic, creating it if need be, and takes the whole backlog.
    method SubscribeWithBacklog(participant: string) returns (r: nat, taken: seq<TuiDelivery>)
      requires Valid()
      modifies this, topics.Values
      ensures Valid() && participant in topics
      ensures topics == if participant in old(topics) then old(topics) else old(topics)[participant := topics[participant]]
      ensures participant !in old(topics) ==> fresh(topics[participant])
      ensures ViewOf(participant) == JoinedView(old(ViewOf(participant)))
      ensures r == old(ViewOf(participant)).next && taken == old(ViewOf(participant)).backlog
      ensures forall p | p != participant :: ViewOf(p) == old(ViewOf(p))
    {
      taken := Waiting(participant);
      if participant !in topics {
        var created := new Topic();
        topics := topics[participant := created];
      }
      r := topics[participant].Subscribe();
      backlog := backlog - {participant};
    }

    // A receiver is dropped.
    method Leave(participant: string, r: nat)
      requires Valid() && participant in topics
      modifies topics[participant]
      ensures Valid() && ViewOf(participant) == LeftView(old(ViewOf(participant)), r)
      ensures forall p | p != participant :: ViewOf(p) == old(ViewOf(p))
    {
      topics[participant].DropReceiver(r);
    }

    // The half of a delivery that runs under the lock.
    method Decide(participant: string, delivery: TuiDelivery) returns (tx: Topic?)
      requires Valid()
      modifies `backlog
      ensures Valid()
      ensures tx == if participant in topics then topics[participant] else null
      ensures ViewOf(participant) == DecidedView(old(ViewOf(participant)), delivery)
      ensures forall p | p != participant :: ViewOf(p) == old(ViewOf(p))
    {
      tx := if participant in topics then topics[participant] else null;
      if !Listening(participant) {
        var items := Waiting(participant) + [delivery];
        while |items| > BACKLOG_CAPACITY
          invariant Last(items, BACKLOG_CAPACITY) == PushBounded(Waiting(participant), delivery)
        {
          items := items[1..];
        }
        backlog := backlog[participant := items];
      }
    }

    // The half that runs after it, on the sender taken under the lock.
    method Send(ghost participant: string, tx: Topic, delivery: TuiDelivery)
      requires Valid() && participant in topics && topics[participant] == tx
      modifies tx
      ensures Valid() && ViewOf(participant) == SentView(old(ViewOf(participant)), delivery)
      ensures forall p | p != participant :: ViewOf(p) == old(ViewOf(p))
    {
      tx.Send(delivery);
    }

    // A whole delivery with nobody in between: every receiver hears it, or, when
    // there is none, it joins the bounded backlog.
    method Deliver(participant: string, delivery: TuiDelivery)
      requires Valid()
      modifies this, topics.Values
      ensures Valid() && topics == old(topics)
      ensures ViewOf(participant) == DeliveredView(old(ViewOf(participant)), delivery)
      ensures forall p | p != participant :: ViewOf(p) == old(ViewOf(p))
    {
      var tx := Decide(participant, delivery);
      if tx != null {
        Send(participant, tx, delivery);
      }
    }
  }

  // ---- the hub moves as the state machine of its participant ----

  function Contents(ids: seq<Id>, content: Id -> TuiDelivery): (s: seq<TuiDelivery>)
    ensures |s| == |ids| && forall i | 0 <= i < |s| :: s[i] == content(ids[i])
  {
    seq(|ids|, i requires 0 <= i < |ids| => content(ids[i]))
  }

  // Receiver `r` belongs to subscriber `r`; `content` is what each delivery says.
  predicate Shows(v: View, h: Hub, content: Id -> TuiDelivery)
  {
    && v.topic == h.topic && v.next == |h.subs| && v.receivers.Keys == h.live
    && (forall r | r in h.live :: r < |h.subs| && v.receivers[r] == Contents(h.subs[r].heard, content))
    && v.backlog == Contents(h.backlog, content)
  }

  function ViewAfter(v: View, step: Step, content: Id -> TuiDelivery): View
  {
    match step
    case Decide(id) => DecidedView(v, content(id))
    case Send(id) => SentView(v, content(id))
    case Subscribe => JoinedView(v)
    case Leave(r) => LeftView(v, r)
  }

  // Each method does to the hub's own state what its step does in the model.
  lemma ViewFollowsModel(v: View, h: Hub, step: Step, content: Id -> TuiDelivery)
    requires Shows(v, h, content) && Enabled(h, step)
    ensures Shows(ViewAfter(v, step, content), Next(h, step), content)
    ensures step.Subscribe? ==> v.backlog == Contents(Next(h, step).subs[v.next].taken, content)
  {
    match step
    case Decide(id) => DecidedFollows(v, h, id, content);
    case Send(id) => SentFollows(v, h, id, content);
    case Subscribe => JoinedFollows(v, h, content);
    case Leave(_) =>
  }

  lemma DecidedFollows(v: View, h: Hub, id: Id, content: Id -> TuiDelivery)
    requires Shows(v, h, content) && !Decided(h, id)
    ensures Shows(DecidedView(v, content(id)), Next(h, Decide(id)), content)
  {
  }

  lemma SentFollows(v: View, h: Hub, id: Id, content: Id -> TuiDelivery)
    requires Shows(v, h, content) && id in h.pending
    ensures Shows(SentView(v, content(id)), Next(h, Send(id)), content)
  {
  }

  lemma JoinedFollows(v: View, h: Hub, content: Id -> TuiDelivery)
    requires Shows(v, h, content)
    ensures Shows(JoinedView(v), Next(h, Subscribe), content)
    ensures v.backlog == Contents(Next(h, Subscribe).subs[v.next].taken, content)
  {
  }

  // A whole delivery does what the atomic step does.
  lemma DeliveryIsAtomicStep(v: View, h: Hub, id: Id, content: Id -> TuiDelivery)
    requires Sound(h) && Shows(v, h, content) && Possible(h, Deliver(id))
    ensures Shows(DeliveredView(v, content(id)), AtomicNext(h, Deliver(id)), content)
  {
    ViewFollowsModel(v, h, Decide(id), content);
    if h.topic {
      ViewFollowsModel(DecidedView(v, content(id)), Next(h, Decide(id)), Send(id), content);
    }
  }

  function ViewRun(v: View, steps: seq<Step>, content: Id -> TuiDelivery): View
    decreases |steps|
  {
    if steps == [] then v else ViewRun(ViewAfter(v, steps[0], content), steps[1..], content)
  }

  lemma {:induction false} ViewRunFollowsModel(v: View, h: Hub, steps: seq<Step>, content: Id -> TuiDelivery)
    requires Shows(v, h, content) && IsRun(h, steps)
    ensures Shows(ViewRun(v, steps, content), Run(h, steps), content)
    decreases |steps|
  {
    if steps != [] {
      ViewFollowsModel(v, h, steps[0], content);
      ViewRunFollowsModel(ViewAfter(v, steps[0], content), Next(h, steps[0]), steps[1..], content);
    }
  }

  // From the empty hub any run of the methods' effects shows the model's run, so
  // everything proved of the model's runs holds of the hub's.
  lemma HubFollowsModel(steps: seq<Step>, content: Id -> TuiDelivery)
    requires IsRun(EMPTY_HUB, steps)
    ensures Shows(ViewRun(EMPTY_VIEW, steps, content), Run(EMPTY_HUB, steps), content)
    ensures Sound(Run(EMPTY_HUB, steps))
  {
    assert Shows(EMPTY_VIEW, EMPTY_HUB, content);
    ViewRunFollowsModel(EMPTY_VIEW, EMPTY_HUB, steps, content);
    ReachableIsSound(steps);
  }
}
