// What the hub guarantees over whole runs.
module HubTheorems {
  import opened Prelude
  import opened HubModel

  // Every step is enabled when it is taken.
  predicate IsRun(h: Hub, steps: seq<Step>)
    decreases |steps|
  {
    steps != [] ==> Enabled(h, steps[0]) && IsRun(Next(h, steps[0]), steps[1..])
  }

  function Run(h: Hub, steps: seq<Step>): Hub
    requires IsRun(h, steps)
    decreases |steps|
  {
    if steps == [] then h else Run(Next(h, steps[0]), steps[1..])
  }

  lemma {:induction false} RunKeepsSound(h: Hub, steps: seq<Step>)
    requires Sound(h) && IsRun(h, steps)
    ensures Sound(Run(h, steps))
    decreases |steps|
  {
    if steps != [] {
      StepKeepsSound(h, steps[0]);
      RunKeepsSound(Next(h, steps[0]), steps[1..]);
    }
  }

  lemma ReachableIsSound(steps: seq<Step>)
    requires IsRun(EMPTY_HUB, steps)
    ensures Sound(Run(EMPTY_HUB, steps))
  {
    RunKeepsSound(EMPTY_HUB, steps);
  }

  // ---- by each route at most once ----

  lemma DistinctParts(whole: seq<Id>, a: seq<Id>, b: seq<Id>)
    requires NoDuplicates(whole) && whole == a + b
    ensures NoDuplicates(a) && NoDuplicates(b) && forall x | x in a :: x !in b
  {
    assert forall i | 0 <= i < |a| :: whole[i] == a[i];
    assert forall i | 0 <= i < |b| :: whole[|a| + i] == b[i];
    forall x | x in a ensures x !in b {
      var i :| 0 <= i < |a| && a[i] == x;
      assert whole[i] == x;
    }
  }

  // Nothing is on offer to two subscribers, or twice to one.
  lemma {:induction false} OffersAreDisjoint(subs: seq<Subscriber>, i: nat, j: nat)
    requires NoDuplicates(Offered(subs)) && i < j < |subs|
    ensures NoDuplicates(subs[i].offered) && NoDuplicates(subs[j].offered)
    ensures forall id | id in subs[i].offered :: id !in subs[j].offered
    decreases |subs|
  {
    var front, last := subs[..|subs| - 1], subs[|subs| - 1];
    DistinctParts(Offered(subs), Offered(front), last.offered);
    OfferedContains(front, i);
    if j < |front| {
      OffersAreDisjoint(front, i, j);
    } else {
      OffersAreDistinct(front, i);
    }
  }

  lemma {:induction false} OffersAreDistinct(subs: seq<Subscriber>, i: nat)
    requires NoDuplicates(Offered(subs)) && i < |subs|
    ensures NoDuplicates(subs[i].offered)
    decreases |subs|
  {
    var front, last := subs[..|subs| - 1], subs[|subs| - 1];
    DistinctParts(Offered(subs), Offered(front), last.offered);
    if i < |front| {
      OffersAreDistinct(front, i);
    }
  }

  // A delivery reaches a subscriber at most once through the backlog and at most
  // once on the topic.
  lemma OncePerRoute(h: Hub, i: nat)
    requires Sound(h) && i < |h.subs|
    ensures NoDuplicates(h.subs[i].taken) && NoDuplicates(h.subs[i].heard)
  {
    DistinctParts(h.unheard, Offered(h.subs), h.since);
    OffersAreDistinct(h.subs, i);
    assert SubscriberOk(h, h.subs[i], i in h.live);
  }

  // The backlog hands a delivery to one subscriber only.
  lemma BacklogsAreDisjoint(h: Hub, i: nat, j: nat)
    requires Sound(h) && i < |h.subs| && j < |h.subs| && i != j
    ensures forall id | id in h.subs[i].taken :: id !in h.subs[j].taken
  {
    DistinctParts(h.unheard, Offered(h.subs), h.since);
    OffersAreDisjoint(h.subs, if i < j then i else j, if i < j then j else i);
    assert forall id | id in h.subs[i].taken :: id in h.subs[i].offered;
    assert forall id | id in h.subs[j].taken :: id in h.subs[j].offered;
  }

  // A subscriber gets a delivery by both routes exactly when it took it from the
  // backlog while the send was still outstanding.
  lemma SeenTwiceExactlyWhenInFlight(h: Hub, i: nat, id: Id)
    requires Sound(h) && i in h.live && id !in h.pending
    ensures id in h.subs[i].taken && id in h.subs[i].heard <==> id in h.subs[i].taken && id in h.subs[i].inflight
  {
    assert SubscriberOk(h, h.subs[i], true);
    assert id in h.subs[i].taken ==> id in h.subs[i].offered;
  }

  // ---- what is never missed ----

  lemma {:induction false} GoneForGood(h: Hub, steps: seq<Step>, i: nat)
    requires IsRun(h, steps) && i < |h.subs| && i in Run(h, steps).live
    ensures i in h.live
    decreases |steps|
  {
    if steps != [] {
      GoneForGood(Next(h, steps[0]), steps[1..], i);
    }
  }

  // Not decided yet, or still to be sent, or heard.
  predicate ToldOrDue(h: Hub, i: nat, id: Id)
    requires i < |h.subs|
  {
    !Decided(h, id) || id in h.pending || id in h.subs[i].heard
  }

  lemma StepTells(h: Hub, step: Step, i: nat, id: Id)
    requires Sound(h) && Enabled(h, step) && i in h.live && i < |h.subs| && ToldOrDue(h, i, id)
    ensures i < |Next(h, step).subs| && ToldOrDue(Next(h, step), i, id)
  {
  }

  // A subscriber that stays hears on the topic every delivery that is decided after
  // it came, as soon as its send is made.
  lemma {:induction false} HearsAllWhileThere(h: Hub, steps: seq<Step>, i: nat, id: Id)
    requires Sound(h) && IsRun(h, steps) && i < |h.subs| && i in Run(h, steps).live && ToldOrDue(h, i, id)
    ensures i < |Run(h, steps).subs| && ToldOrDue(Run(h, steps), i, id)
    decreases |steps|
  {
    if steps != [] {
      GoneForGood(h, steps, i);
      StepTells(h, steps[0], i, id);
      StepKeepsSound(h, steps[0]);
      HearsAllWhileThere(Next(h, steps[0]), steps[1..], i, id);
    }
  }

  // ---- what is lost ----

  // The deliveries one subscription collects: subscriber `i`'s, or the waiting ones.
  function Segment(h: Hub, i: nat): seq<Id>
  {
    if i < |h.subs| then h.subs[i].offered else h.since
  }

  function Kept(h: Hub, i: nat): seq<Id>
  {
    if i < |h.subs| then h.subs[i].taken else h.backlog
  }

  lemma {:induction false} FindOffer(subs: seq<Subscriber>, id: Id) returns (i: nat)
    requires id in Offered(subs)
    ensures i < |subs| && id in subs[i].offered
  {
    var front := subs[..|subs| - 1];
    if id in Offered(front) {
      i := FindOffer(front, id);
    } else {
      i := |subs| - 1;
    }
  }

  lemma LastKeeps(s: seq<Id>, n: nat, k: nat)
    requires NoDuplicates(s) && k < |s|
    ensures s[k] in Last(s, n) <==> |s| - k <= n
  {
    if |s| > n {
      var t := Last(s, n);
      assert forall i | 0 <= i < |t| :: t[i] == s[|s| - n + i];
      if |s| - k <= n {
        assert t[k - (|s| - n)] == s[k];
      }
    }
  }

  // A delivery decided without a receiver is kept for the subscription it falls
  // to, unless 64 later ones fell to the same subscription.
  lemma LostOnlyThroughTheCap(h: Hub, id: Id) returns (i: nat, k: nat)
    requires Sound(h) && id in h.unheard
    ensures i <= |h.subs| && k < |Segment(h, i)| && Segment(h, i)[k] == id
    ensures id in Kept(h, i) <==> |Segment(h, i)| - k <= 64
  {
    DistinctParts(h.unheard, Offered(h.subs), h.since);
    if id in h.since {
      i := |h.subs|;
    } else {
      i := FindOffer(h.subs, id);
      OffersAreDistinct(h.subs, i);
    }
    k :| 0 <= k < |Segment(h, i)| && Segment(h, i)[k] == id;
    LastKeeps(Segment(h, i), BACKLOG_CAPACITY, k);
  }

  // A delivery decided with a receiver and sent is put into no receiver exactly
  // when its send found nobody: whoever was listening at the decision had left.
  lemma DirectLostExactlyWhenMissed(h: Hub, id: Id)
    requires Sound(h) && id in h.direct && id !in h.pending
    ensures id in h.missed <==> !Heard(h.subs, id)
    ensures id !in h.unheard
  {
    assert DirectFate(h, id);
  }

  // ---- atomic steps ----

  datatype Event = Deliver(id: Id) | Join | Quit(i: nat)

  predicate Possible(h: Hub, e: Event)
  {
    match e
    case Deliver(id) => !Decided(h, id)
    case Join => true
    case Quit(i) => i in h.live
  }

  function AtomicNext(h: Hub, e: Event): Hub
    requires Possible(h, e)
  {
    match e
    case Deliver(id) =>
      var decided := Next(h, Decide(id));
      if id in decided.pending then Next(decided, Send(id)) else decided
    case Join => Next(h, Subscribe)
    case Quit(i) => Next(h, Leave(i))
  }

  predicate Quiet(h: Hub)
  {
    h.pending == {} && h.missed == {} && forall i | 0 <= i < |h.subs| :: h.subs[i].inflight == {}
  }

  lemma AtomicStepKeeps(h: Hub, e: Event)
    requires Sound(h) && Quiet(h) && Possible(h, e)
    ensures Sound(AtomicNext(h, e)) && Quiet(AtomicNext(h, e))
  {
    match e
    case Deliver(id) => DeliverKeeps(h, id);
    case Join => JoinKeeps(h);
    case Quit(i) => QuitKeeps(h, i);
  }

  lemma DeliverKeeps(h: Hub, id: Id)
    requires Sound(h) && Quiet(h) && !Decided(h, id)
    ensures Sound(AtomicNext(h, Deliver(id))) && Quiet(AtomicNext(h, Deliver(id)))
  {
    var decided := Next(h, Decide(id));
    StepKeepsSound(h, Decide(id));
    if id in decided.pending {
      StepKeepsSound(decided, Send(id));
      DecidedHere(h, id);
    }
  }

  lemma JoinKeeps(h: Hub)
    requires Sound(h) && Quiet(h)
    ensures Sound(Next(h, Subscribe)) && Quiet(Next(h, Subscribe))
  {
    StepKeepsSound(h, Subscribe);
  }

  lemma QuitKeeps(h: Hub, i: nat)
    requires Sound(h) && Quiet(h) && i in h.live
    ensures Sound(Next(h, Leave(i))) && Quiet(Next(h, Leave(i)))
  {
    StepKeepsSound(h, Leave(i));
  }

  lemma DecidedHere(h: Hub, id: Id)
    requires Quiet(h) && SubscribersOk(h) && !Decided(h, id)
    ensures
      var decided := Next(h, Decide(id));
      id in decided.pending ==> Quiet(Next(decided, Send(id)))
  {
    var decided := Next(h, Decide(id));
    assert decided.direct != h.direct ==> decided.live != {};
  }

  predicate IsAtomicRun(h: Hub, events: seq<Event>)
    decreases |events|
  {
    events != [] ==> Possible(h, events[0]) && IsAtomicRun(AtomicNext(h, events[0]), events[1..])
  }

  function AtomicRun(h: Hub, events: seq<Event>): Hub
    requires IsAtomicRun(h, events)
    decreases |events|
  {
    if events == [] then h else AtomicRun(AtomicNext(h, events[0]), events[1..])
  }

  lemma {:induction false} AtomicRunKeeps(h: Hub, events: seq<Event>)
    requires Sound(h) && Quiet(h) && IsAtomicRun(h, events)
    ensures Sound(AtomicRun(h, events)) && Quiet(AtomicRun(h, events))
    decreases |events|
  {
    if events != [] {
      AtomicStepKeeps(h, events[0]);
      AtomicRunKeeps(AtomicNext(h, events[0]), events[1..]);
    }
  }

  // With atomic steps the backlog is exactly the last 64 or fewer deliveries
  // published without a receiver since the previous subscription, nobody gets a
  // delivery twice, and every other delivery is put into somebody's receiver.
  lemma AtomicDelivery(events: seq<Event>, i: nat, id: Id)
    requires IsAtomicRun(EMPTY_HUB, events)
    ensures
      var h := AtomicRun(EMPTY_HUB, events);
      && h.backlog == Last(h.since, 64)
      && (i < |h.subs| ==> h.subs[i].taken == Last(h.subs[i].offered, 64))
      && (i < |h.subs| ==> !(id in h.subs[i].taken && id in h.subs[i].heard))
      && (id in h.direct ==> Heard(h.subs, id))
  {
    AtomicRunKeeps(EMPTY_HUB, events);
    var h := AtomicRun(EMPTY_HUB, events);
    if i < |h.subs| {
      assert SubscriberOk(h, h.subs[i], i in h.live);
      assert id in h.subs[i].taken ==> id in h.subs[i].offered;
    }
    assert id in h.direct ==> DirectFate(h, id);
  }

  // ---- what the split between decision and send allows ----

  lemma RunOne(h: Hub, step: Step)
    requires Enabled(h, step)
    ensures IsRun(h, [step]) && Run(h, [step]) == Next(h, step)
  {
    assert [step][1..] == [];
  }

  // A run with a step put before it.
  lemma RunCons(h: Hub, step: Step, rest: seq<Step>) returns (steps: seq<Step>)
    requires Enabled(h, step) && IsRun(Next(h, step), rest)
    ensures IsRun(h, steps) && Run(h, steps) == Run(Next(h, step), rest)
  {
    steps := [step] + rest;
    assert steps[1..] == rest;
  }

  // Decided while nobody listens on an existing topic, taken from the backlog by
  // a subscriber that comes before the send, then heard as well.
  lemma SeenTwice() returns (steps: seq<Step>)
    ensures
      && IsRun(EMPTY_HUB, steps)
      && var h := Run(EMPTY_HUB, steps);
         |h.subs| == 2 && 7 in h.subs[1].taken && 7 in h.subs[1].heard
  {
    var h1 := Next(EMPTY_HUB, Subscribe);
    var h2 := Next(h1, Leave(0));
    var h3 := Next(h2, Decide(7));
    var h4 := Next(h3, Subscribe);
    var h5 := Next(h4, Send(7));
    steps := [Send(7)];
    RunOne(h4, Send(7));
    steps := RunCons(h3, Subscribe, steps);
    steps := RunCons(h2, Decide(7), steps);
    steps := RunCons(h1, Leave(0), steps);
    steps := RunCons(EMPTY_HUB, Subscribe, steps);
  }

  // Decided while somebody listens, sent after they left: in no backlog, heard by nobody.
  lemma LostBetween() returns (steps: seq<Step>)
    ensures
      && IsRun(EMPTY_HUB, steps)
      && var h := Run(EMPTY_HUB, steps);
         7 in h.missed && 7 !in h.backlog && !Heard(h.subs, 7)
  {
    var h1 := Next(EMPTY_HUB, Subscribe);
    var h2 := Next(h1, Decide(7));
    var h3 := Next(h2, Leave(0));
    var h4 := Next(h3, Send(7));
    steps := [Send(7)];
    RunOne(h3, Send(7));
    steps := RunCons(h2, Leave(0), steps);
    steps := RunCons(h1, Decide(7), steps);
    steps := RunCons(EMPTY_HUB, Subscribe, steps);
  }
}
