// Reading from the topic. Its ring holds 128 messages: a subscriber further behind
// is told how many it missed and goes on with the oldest one still there.
module HubLag {
  import opened Prelude
  import opened HubModel

  const CHANNEL_CAPACITY: nat := 128

  type Message = Id

  // Where a subscriber reads next in what its receiver was sent, what it got so
  // far, and which positions were skipped.
  datatype Reader = Reader(next: nat, got: seq<Message>, lost: set<nat>)

  const FRESH_READER: Reader := Reader(0, [], {})

  datatype Listeners = Listeners(hub: Hub, readers: seq<Reader>)

  const NOBODY: Listeners := Listeners(EMPTY_HUB, [])

  datatype Move = OfHub(step: Step) | Recv(i: nat)

  predicate CanMove(s: Listeners, move: Move)
  {
    match move
    case OfHub(step) => Enabled(s.hub, step)
    case Recv(i) => i in s.hub.live && i < |s.readers| && i < |s.hub.subs| && s.readers[i].next < |s.hub.subs[i].heard|
  }

  function Span(from: nat, to: nat): (s: set<nat>)
    ensures forall k: nat :: k in s <==> from <= k < to
  {
    if from < to then Span(from, to - 1) + {to - 1} else {}
  }

  // `Receiver::recv`: either `Lagged`, which skips, or a message.
  function Received(r: Reader, sent: seq<Message>): Reader
    requires r.next < |sent|
  {
    if |sent| - r.next > CHANNEL_CAPACITY then
      var oldest := |sent| - CHANNEL_CAPACITY;
      r.(next := oldest, lost := r.lost + Span(r.next, oldest))
    else r.(next := r.next + 1, got := r.got + [sent[r.next]])
  }

  function Moved(s: Listeners, move: Move): Listeners
    requires CanMove(s, move)
  {
    match move
    case OfHub(step) =>
      Listeners(Next(s.hub, step), if step.Subscribe? then s.readers + [FRESH_READER] else s.readers)
    case Recv(i) => s.(readers := s.readers[i := Received(s.readers[i], s.hub.subs[i].heard)])
  }

  // ---- the invariant ----

  // The first `n` messages but those at the lost positions, in order.
  function Unskipped(sent: seq<Message>, n: nat, lost: set<nat>): seq<Message>
    requires n <= |sent|
  {
    if n == 0 then [] else Unskipped(sent, n - 1, lost) + (if n - 1 in lost then [] else [sent[n - 1]])
  }

  predicate ReaderOk(r: Reader, sent: seq<Message>)
  {
    && r.next <= |sent| && (forall k <- r.lost :: k < r.next)
    && r.got == Unskipped(sent, r.next, r.lost)
  }

  predicate ReadersHold(s: Listeners)
  {
    && Sound(s.hub) && |s.readers| == |s.hub.subs|
    && forall i | 0 <= i < |s.readers| :: ReaderOk(s.readers[i], s.hub.subs[i].heard)
  }

  lemma {:induction false} UnskippedDepends(a: seq<Message>, b: seq<Message>, n: nat, lost: set<nat>, more: set<nat>)
    requires n <= |a| && a <= b && lost <= more && forall k <- more - lost :: n <= k
    ensures Unskipped(a, n, lost) == Unskipped(b, n, more)
  {
    if n > 0 {
      UnskippedDepends(a, b, n - 1, lost, more);
      assert n - 1 in more - lost ==> n <= n - 1;
    }
  }

  // A stretch of lost positions adds nothing.
  lemma {:induction false} UnskippedSkips(sent: seq<Message>, m: nat, n: nat, lost: set<nat>)
    requires m <= n <= |sent| && forall k | m <= k < n :: k in lost
    ensures Unskipped(sent, n, lost) == Unskipped(sent, m, lost)
    decreases n
  {
    if m < n {
      UnskippedSkips(sent, m, n - 1, lost);
    }
  }

  lemma ReceivedOk(r: Reader, sent: seq<Message>)
    requires ReaderOk(r, sent) && r.next < |sent|
    ensures ReaderOk(Received(r, sent), sent)
  {
    var after := Received(r, sent);
    UnskippedDepends(sent, sent, r.next, r.lost, after.lost);
    if |sent| - r.next > CHANNEL_CAPACITY {
      UnskippedSkips(sent, r.next, after.next, after.lost);
    }
  }

  lemma HeardGrows(h: Hub, step: Step, i: nat)
    requires Enabled(h, step) && i < |h.subs|
    ensures i < |Next(h, step).subs| && h.subs[i].heard <= Next(h, step).subs[i].heard
  {
  }

  lemma HubStepKeepsReaders(s: Listeners, step: Step)
    requires ReadersHold(s) && Enabled(s.hub, step)
    ensures ReadersHold(Moved(s, OfHub(step)))
  {
    StepKeepsSound(s.hub, step);
    var t := Moved(s, OfHub(step));
    forall i | 0 <= i < |t.readers| ensures ReaderOk(t.readers[i], t.hub.subs[i].heard) {
      if i < |s.readers| {
        HeardGrows(s.hub, step, i);
        UnskippedDepends(s.hub.subs[i].heard, t.hub.subs[i].heard, s.readers[i].next, s.readers[i].lost, s.readers[i].lost);
      }
    }
  }

  lemma MoveKeepsReaders(s: Listeners, move: Move)
    requires ReadersHold(s) && CanMove(s, move)
    ensures ReadersHold(Moved(s, move))
  {
    match move
    case OfHub(step) => HubStepKeepsReaders(s, step);
    case Recv(i) => ReceivedOk(s.readers[i], s.hub.subs[i].heard);
  }

  // ---- whole runs ----

  predicate CanMoves(s: Listeners, moves: seq<Move>)
    decreases |moves|
  {
    moves != [] ==> CanMove(s, moves[0]) && CanMoves(Moved(s, moves[0]), moves[1..])
  }

  function AfterMoves(s: Listeners, moves: seq<Move>): Listeners
    requires CanMoves(s, moves)
    decreases |moves|
  {
    if moves == [] then s else AfterMoves(Moved(s, moves[0]), moves[1..])
  }

  lemma {:induction false} MovesKeepReaders(s: Listeners, moves: seq<Move>)
    requires ReadersHold(s) && CanMoves(s, moves)
    ensures ReadersHold(AfterMoves(s, moves))
    decreases |moves|
  {
    if moves != [] {
      MoveKeepsReaders(s, moves[0]);
      MovesKeepReaders(Moved(s, moves[0]), moves[1..]);
    }
  }

  function Position(s: Listeners, i: nat): nat
  {
    if i < |s.readers| then s.readers[i].next else 0
  }

  function Lost(s: Listeners, i: nat): set<nat>
  {
    if i < |s.readers| then s.readers[i].lost else {}
  }

  // The subscriber reads while 128 or more messages have come after its unread
  // message `k`.
  predicate ReadsTooLate(s: Listeners, move: Move, i: nat, k: nat)
    requires CanMove(s, move)
  {
    move == Recv(i) && Position(s, i) <= k && |s.hub.subs[i].heard| - (k + 1) >= 128
  }

  predicate Overtaken(s: Listeners, moves: seq<Move>, i: nat, k: nat)
    requires CanMoves(s, moves)
    decreases |moves|
  {
    moves != [] && (ReadsTooLate(s, moves[0], i, k) || Overtaken(Moved(s, moves[0]), moves[1..], i, k))
  }

  // One move loses exactly the unread messages it comes too late for, and what is
  // behind the reader stays as it is.
  lemma MoveLoses(s: Listeners, move: Move, i: nat, k: nat)
    requires CanMove(s, move)
    ensures Position(s, i) <= Position(Moved(s, move), i)
    ensures k in Lost(Moved(s, move), i) <==> k in Lost(s, i) || ReadsTooLate(s, move, i, k)
    ensures ReadsTooLate(s, move, i, k) ==> k < Position(Moved(s, move), i)
  {
  }

  lemma {:induction false} LostOrOvertaken(s: Listeners, moves: seq<Move>, i: nat, k: nat)
    requires CanMoves(s, moves)
    ensures k in Lost(AfterMoves(s, moves), i) <==> k in Lost(s, i) || Overtaken(s, moves, i, k)
    decreases |moves|
  {
    if moves != [] {
      MoveLoses(s, moves[0], i, k);
      LostOrOvertaken(Moved(s, moves[0]), moves[1..], i, k);
    }
  }

  lemma {:induction false} UnskippedHolds(sent: seq<Message>, n: nat, lost: set<nat>, k: nat)
    requires n <= |sent| && k < n && NoDuplicates(sent)
    ensures sent[k] in Unskipped(sent, n, lost) <==> k !in lost
  {
    if k < n - 1 {
      UnskippedHolds(sent, n - 1, lost, k);
    } else {
      UnskippedIsBefore(sent, n - 1, lost);
    }
  }

  lemma {:induction false} UnskippedIsBefore(sent: seq<Message>, n: nat, lost: set<nat>)
    requires n <= |sent|
    ensures forall m <- Unskipped(sent, n, lost) :: m in sent[..n]
  {
    if n > 0 {
      UnskippedIsBefore(sent, n - 1, lost);
    }
  }

  lemma {:induction false} UnskippedIsDistinct(sent: seq<Message>, n: nat, lost: set<nat>)
    requires n <= |sent| && NoDuplicates(sent)
    ensures NoDuplicates(Unskipped(sent, n, lost))
  {
    if n > 0 {
      UnskippedIsDistinct(sent, n - 1, lost);
      UnskippedIsBefore(sent, n - 1, lost);
      var front := Unskipped(sent, n - 1, lost);
      forall i | 0 <= i < |front| ensures front[i] != sent[n - 1] {
        assert front[i] in sent[..n - 1];
      }
    }
  }

  // Whatever the interleaving of deliveries, subscriptions, disconnects and reads:
  // a subscriber gets what is put into its receiver in order and once, and of the
  // messages it is past, exactly those that were not overtaken by 128 later ones
  // before it came to read them.
  lemma GotExactlyWhenNotOvertaken(moves: seq<Move>, i: nat, k: nat)
    requires CanMoves(NOBODY, moves)
    requires
      var s := AfterMoves(NOBODY, moves);
      i < |s.hub.subs| && k < |s.hub.subs[i].heard| && k < Position(s, i)
    ensures
      var s := AfterMoves(NOBODY, moves);
      i < |s.readers| &&
      var reader, sent := s.readers[i], s.hub.subs[i].heard;
      && NoDuplicates(reader.got) && ReaderOk(reader, sent)
      && (sent[k] in reader.got <==> !Overtaken(NOBODY, moves, i, k))
  {
    GotUnlessOvertaken(NOBODY, moves, i, k);
  }

  lemma GotUnlessOvertaken(start: Listeners, moves: seq<Move>, i: nat, k: nat)
    requires ReadersHold(start) && k !in Lost(start, i) && CanMoves(start, moves)
    requires
      var s := AfterMoves(start, moves);
      i < |s.hub.subs| && k < |s.hub.subs[i].heard| && k < Position(s, i)
    ensures
      var s := AfterMoves(start, moves);
      i < |s.readers| &&
      var reader, sent := s.readers[i], s.hub.subs[i].heard;
      && NoDuplicates(reader.got) && ReaderOk(reader, sent)
      && (sent[k] in reader.got <==> !Overtaken(start, moves, i, k))
  {
    MovesKeepReaders(start, moves);
    ReaderGot(AfterMoves(start, moves), i, k);
    LostOrOvertaken(start, moves, i, k);
  }

  lemma ReaderGot(s: Listeners, i: nat, k: nat)
    requires ReadersHold(s) && i < |s.readers| && k < s.readers[i].next && k < |s.hub.subs[i].heard|
    ensures
      var reader, sent := s.readers[i], s.hub.subs[i].heard;
      NoDuplicates(reader.got) && ReaderOk(reader, sent) && (sent[k] in reader.got <==> k !in reader.lost)
  {
    var reader, sent := s.readers[i], s.hub.subs[i].heard;
    assert ReaderOk(reader, sent) && SubscriberOk(s.hub, s.hub.subs[i], i in s.hub.live);
    UnskippedIsDistinct(sent, reader.next, reader.lost);
    UnskippedHolds(sent, reader.next, reader.lost, k);
  }

  predicate Got(s: Listeners, i: nat, id: Id)
  {
    i < |s.readers| && id in s.readers[i].got
  }

  // The delivery was put into subscriber `i`'s receiver, is behind its reader, and
  // was not overtaken there.
  predicate ReadInTime(moves: seq<Move>, i: nat, id: Id)
    requires CanMoves(NOBODY, moves)
  {
    var s := AfterMoves(NOBODY, moves);
    i < |s.hub.subs| && exists k | 0 <= k < |s.hub.subs[i].heard| :: ReadAt(moves, s, i, id, k)
  }

  predicate ReadAt(moves: seq<Move>, s: Listeners, i: nat, id: Id, k: nat)
    requires CanMoves(NOBODY, moves) && i < |s.hub.subs| && k < |s.hub.subs[i].heard|
  {
    s.hub.subs[i].heard[k] == id && k < Position(s, i) && !Overtaken(NOBODY, moves, i, k)
  }

  // A subscriber has got a delivery exactly when it came to read it in time.
  lemma GotExactlyWhenReadInTime(moves: seq<Move>, i: nat, id: Id)
    requires CanMoves(NOBODY, moves)
    ensures Got(AfterMoves(NOBODY, moves), i, id) <==> ReadInTime(moves, i, id)
  {
    MovesKeepReaders(NOBODY, moves);
    var s := AfterMoves(NOBODY, moves);
    if Got(s, i, id) {
      var k := GotFrom(s.readers[i], s.hub.subs[i].heard, id);
      GotExactlyWhenNotOvertaken(moves, i, k);
      assert ReadAt(moves, s, i, id, k);
    }
    if ReadInTime(moves, i, id) {
      var k :| 0 <= k < |s.hub.subs[i].heard| && ReadAt(moves, s, i, id, k);
      GotExactlyWhenNotOvertaken(moves, i, k);
    }
  }

  // What was got stood at a position behind the reader.
  lemma GotFrom(r: Reader, sent: seq<Message>, id: Id) returns (k: nat)
    requires ReaderOk(r, sent) && id in r.got
    ensures k < r.next && k < |sent| && sent[k] == id
  {
    UnskippedIsBefore(sent, r.next, r.lost);
    assert id in sent[..r.next];
    k :| 0 <= k < r.next && sent[k] == id;
  }

  // A delivery decided with a receiver and sent has reached somebody exactly when
  // somebody its send found, still there or not, read it in time; when the send
  // found nobody there is no such subscriber.
  lemma DirectReachesExactlyWhen(moves: seq<Move>, id: Id)
    requires CanMoves(NOBODY, moves)
    requires
      var s := AfterMoves(NOBODY, moves);
      id in s.hub.direct && id !in s.hub.pending
    ensures
      var s := AfterMoves(NOBODY, moves);
      && ((exists i: nat :: Got(s, i, id)) <==> (exists i: nat :: ReadInTime(moves, i, id)))
      && (id in s.hub.missed ==> !exists i: nat :: ReadInTime(moves, i, id))
  {
    MovesKeepReaders(NOBODY, moves);
    var s := AfterMoves(NOBODY, moves);
    forall i: nat ensures Got(s, i, id) <==> ReadInTime(moves, i, id) {
      GotExactlyWhenReadInTime(moves, i, id);
    }
    assert DirectFate(s.hub, id);
    forall i: nat ensures ReadInTime(moves, i, id) ==> Heard(s.hub.subs, id) {
    }
  }
}
