// What the client shows of a turn while it reads the turn's events.
module ClientView {
  import opened Prelude
  import opened ClientTurn
  import opened SteeringModel

  function ReadEvents(t: Turn, events: seq<Event>): Turn
    decreases |events|
  {
    if events == [] then t else ReadEvents(ClientApply(t, Forward(events[0])), events[1..])
  }

  // The last event that says something about tools, a `final` included.
  function LastTelling(events: seq<Event>): Option<Event>
  {
    if events == [] then None
    else if events[|events| - 1] != Stream then Some(events[|events| - 1])
    else LastTelling(events[..|events| - 1])
  }

  // The tool shown is the one started last, unless it has completed or the turn is over.
  function ToolAfter(shown: Option<string>, events: seq<Event>): Option<string>
  {
    match LastTelling(events)
    case None => shown
    case Some(ToolStarted(name)) => Some(name)
    case Some(_) => None
  }

  lemma {:induction false} ReadEventsSnoc(t: Turn, events: seq<Event>, last: Event)
    ensures ReadEvents(t, events + [last]) == ClientApply(ReadEvents(t, events), Forward(last))
    decreases |events|
  {
    var all := events + [last];
    if events == [] {
      assert all[1..] == [];
    } else {
      assert all[1..] == events[1..] + [last];
      ReadEventsSnoc(ClientApply(t, Forward(events[0])), events[1..], last);
    }
  }

  // Reading events never touches the queue. The turn stays busy until a `final`
  // is read with nothing queued, and the timer runs as long as it is busy.
  lemma {:induction false} EventsShow(t: Turn, events: seq<Event>)
    requires Coherent(t)
    ensures
      var after := ReadEvents(t, events);
      && after.queued == t.queued
      && (after.busy <==> t.busy && (Final !in events || t.queued != []))
      && after.busySince == (if after.busy then t.busySince else None)
      && after.activeTool == ToolAfter(t.activeTool, events)
    decreases |events|
  {
    if events != [] {
      var front, last := events[..|events| - 1], events[|events| - 1];
      assert events == front + [last];
      EventsShow(t, front);
      ReadEventsSnoc(t, front, last);
    }
  }
}
