// Memory recall: hits of many searches merged by id, ranked and cut, then the
// pinned rows that are not among them.
module Recall {
  import opened Prelude
  import opened ArgumentRewrite
  import opened RecallMessages

  type Id = nat

  type RunId = nat

  // Scores are compared only, so integers stand for them.
  datatype Hit = Hit(id: Id, score: int, body: string)

  type Positive = n: nat | n > 0 witness 1

  const DEFAULT_LIMIT: nat := 15

  // ---- merging by id ----

  function MergeOne(best: map<Id, Hit>, hit: Hit): map<Id, Hit>
  {
    if hit.id in best && hit.score <= best[hit.id].score then best else best[hit.id := hit]
  }

  function Merge(best: map<Id, Hit>, hits: seq<Hit>): map<Id, Hit>
    decreases |hits|
  {
    if hits == [] then best else Merge(MergeOne(best, hits[0]), hits[1..])
  }

  // `h` was found, with the best score any hit of its id has.
  predicate IsBest(found: seq<Hit>, h: Hit)
  {
    h in found && forall g <- found :: g.id == h.id ==> g.score <= h.score
  }

  predicate HoldsBest(best: map<Id, Hit>, found: seq<Hit>)
  {
    && (forall g <- found :: g.id in best)
    && forall id <- best :: best[id].id == id && IsBest(found, best[id])
  }

  lemma MergeOneHoldsBest(best: map<Id, Hit>, found: seq<Hit>, hit: Hit)
    requires HoldsBest(best, found)
    ensures HoldsBest(MergeOne(best, hit), found + [hit])
  {
    var after, all := MergeOne(best, hit), found + [hit];
    forall id <- after ensures after[id].id == id && IsBest(all, after[id]) {
      assert id in best ==> IsBest(found, best[id]);
    }
  }

  lemma {:induction false} MergeHoldsBest(best: map<Id, Hit>, found: seq<Hit>, hits: seq<Hit>)
    requires HoldsBest(best, found)
    ensures HoldsBest(Merge(best, hits), found + hits)
    decreases |hits|
  {
    if hits == [] {
      assert found + [] == found;
    } else {
      MergeOneHoldsBest(best, found, hits[0]);
      MergeHoldsBest(MergeOne(best, hits[0]), found + [hits[0]], hits[1..]);
      assert found + [hits[0]] + hits[1..] == found + hits;
    }
  }

  // ---- ranking ----

  function Score(h: Hit): int
  {
    h.score
  }

  // Stable insertion, later equals after earlier ones.
  function InsertHit(sorted: seq<Hit>, h: Hit): (r: seq<Hit>)
    ensures |r| == |sorted| + 1
  {
    if sorted == [] || sorted[|sorted| - 1].score >= h.score then sorted + [h]
    else InsertHit(sorted[..|sorted| - 1], h) + [sorted[|sorted| - 1]]
  }

  // The descending sort of the library: stable and by score.
  function SortHits(hits: seq<Hit>): (r: seq<Hit>)
    ensures |r| == |hits|
  {
    if hits == [] then [] else InsertHit(SortHits(hits[..|hits| - 1]), hits[|hits| - 1])
  }

  predicate DistinctIds(hits: seq<Hit>)
  {
    forall i, j | 0 <= i < j < |hits| :: hits[i].id != hits[j].id
  }

  lemma {:induction false} InsertMembers(sorted: seq<Hit>, h: Hit)
    ensures forall x :: x in InsertHit(sorted, h) <==> x in sorted || x == h
    decreases |sorted|
  {
    if sorted != [] && sorted[|sorted| - 1].score < h.score {
      var front, last := sorted[..|sorted| - 1], sorted[|sorted| - 1];
      InsertMembers(front, h);
      assert sorted == front + [last];
    }
  }

  lemma {:induction false} InsertSorts(sorted: seq<Hit>, h: Hit)
    requires Descending(sorted, Score)
    ensures Descending(InsertHit(sorted, h), Score)
    decreases |sorted|
  {
    if sorted != [] && sorted[|sorted| - 1].score < h.score {
      var front, last := sorted[..|sorted| - 1], sorted[|sorted| - 1];
      InsertSorts(front, h);
      InsertMembers(front, h);
      var inner := InsertHit(front, h);
      forall i | 0 <= i < |inner| ensures inner[i].score >= last.score {
        assert inner[i] in inner;
      }
    }
  }

  lemma {:induction false} InsertDistinct(sorted: seq<Hit>, h: Hit)
    requires DistinctIds(sorted) && forall x <- sorted :: x.id != h.id
    ensures DistinctIds(InsertHit(sorted, h))
    decreases |sorted|
  {
    if sorted != [] && sorted[|sorted| - 1].score < h.score {
      var front, last := sorted[..|sorted| - 1], sorted[|sorted| - 1];
      InsertDistinct(front, h);
      InsertMembers(front, h);
      var inner := InsertHit(front, h);
      forall i | 0 <= i < |inner| ensures inner[i].id != last.id {
        assert inner[i] in inner;
      }
    }
  }

  // Sorting rearranges: the same hits, still distinct, in descending order.
  lemma {:induction false} SortSorts(hits: seq<Hit>)
    requires DistinctIds(hits)
    ensures Descending(SortHits(hits), Score) && DistinctIds(SortHits(hits))
    ensures forall x :: x in SortHits(hits) <==> x in hits
    decreases |hits|
  {
    if hits != [] {
      var front, last := hits[..|hits| - 1], hits[|hits| - 1];
      SortSorts(front);
      InsertMembers(SortHits(front), last);
      InsertSorts(SortHits(front), last);
      InsertDistinct(SortHits(front), last);
      assert hits == front + [last];
    }
  }

  // The values of the map in the order it happens to iterate its keys.
  function ValuesIn(best: map<Id, Hit>, order: seq<Id>): seq<Hit>
    requires forall id <- order :: id in best
  {
    seq(|order|, i requires 0 <= i < |order| => best[order[i]])
  }

  predicate Enumerates(order: seq<Id>, keys: set<Id>)
  {
    NoDuplicates(order) && (forall id <- order :: id in keys) && forall id <- keys :: id in order
  }

  function Take(hits: seq<Hit>, limit: nat): seq<Hit>
  {
    if |hits| <= limit then hits else hits[..limit]
  }

  function Ranked(found: seq<Hit>, order: seq<Id>, limit: nat): seq<Hit>
    requires Enumerates(order, Merge(map[], found).Keys)
  {
    Take(SortHits(ValuesIn(Merge(map[], found), order)), limit)
  }

  lemma ValuesAre(best: map<Id, Hit>, found: seq<Hit>, order: seq<Id>)
    requires HoldsBest(best, found) && Enumerates(order, best.Keys)
    ensures DistinctIds(ValuesIn(best, order)) && forall h :: h in ValuesIn(best, order) <==> h.id in best && h == best[h.id]
  {
    var values := ValuesIn(best, order);
    forall i | 0 <= i < |values| ensures values[i].id == order[i] {
      assert order[i] in best;
    }
    forall h ensures h in values <==> h.id in best && h == best[h.id] {
      if h.id in best && h == best[h.id] {
        var i :| 0 <= i < |order| && order[i] == h.id;
        assert values[i] == h;
      }
    }
  }

  function IdsOf(hits: seq<Hit>): set<Id>
  {
    set h <- hits :: h.id
  }

  predicate AllAtLeast(hits: seq<Hit>, score: int)
  {
    forall h <- hits :: h.score >= score
  }

  // A found hit's id is listed, or the list is full of hits that score no less.
  predicate Placed(ranked: seq<Hit>, limit: nat, g: Hit)
  {
    g.id in IdsOf(ranked) || (|ranked| == limit && AllAtLeast(ranked, g.score))
  }

  // What the ranked hits promise, over whatever the searches found.
  predicate IsRanking(found: seq<Hit>, ranked: seq<Hit>, limit: nat)
  {
    && |ranked| <= limit && DistinctIds(ranked) && Descending(ranked, Score)
    && (forall h <- ranked :: IsBest(found, h))
    && forall g <- found :: Placed(ranked, limit, g)
  }

  lemma TakePlaces(all: seq<Hit>, limit: nat, h: Hit, score: int)
    requires Descending(all, Score) && h in all && score <= h.score
    ensures h in Take(all, limit) || (|Take(all, limit)| == limit && AllAtLeast(Take(all, limit), score))
  {
    var ranked := Take(all, limit);
    var k :| 0 <= k < |all| && all[k] == h;
    if k < |ranked| {
      assert ranked[k] == h;
    } else {
      forall x <- ranked ensures x.score >= score {
        var i :| 0 <= i < |ranked| && ranked[i] == x;
        assert all[i] == x;
      }
    }
  }

  lemma TakeRanks(all: seq<Hit>, found: seq<Hit>, limit: nat)
    requires DistinctIds(all) && Descending(all, Score) && forall h <- all :: IsBest(found, h)
    requires forall g <- found :: g.id in IdsOf(all)
    ensures IsRanking(found, Take(all, limit), limit)
  {
    var ranked := Take(all, limit);
    assert forall h <- ranked :: h in all;
    forall g <- found ensures Placed(ranked, limit, g) {
      var h :| h in all && h.id == g.id;
      assert IsBest(found, h);
      TakePlaces(all, limit, h, g.score);
    }
  }

  // However many searches ran and however the map iterates: distinct ids, each
  // with its best score, in descending order, no more than the limit, and none
  // below an omitted one.
  lemma RankingIsRight(found: seq<Hit>, order: seq<Id>, limit: nat)
    requires Enumerates(order, Merge(map[], found).Keys)
    ensures IsRanking(found, Ranked(found, order, limit), limit)
  {
    var best := Merge(map[], found);
    MergeHoldsBest(map[], [], found);
    assert [] + found == found;
    ValuesAre(best, found, order);
    var all := SortHits(ValuesIn(best, order));
    SortSorts(ValuesIn(best, order));
    forall g <- found ensures g.id in IdsOf(all) {
      assert best[g.id] in all;
    }
    TakeRanks(all, found, limit);
  }

  // Of several best hits of an id the one found first is kept.
  lemma {:induction false} FirstBestIsKept(best: map<Id, Hit>, hits: seq<Hit>, i: nat)
    requires i < |hits|
    requires forall j | 0 <= j < i && hits[j].id == hits[i].id :: hits[j].score < hits[i].score
    requires forall j | i < j < |hits| && hits[j].id == hits[i].id :: hits[j].score <= hits[i].score
    requires hits[i].id in best ==> best[hits[i].id].score < hits[i].score
    ensures hits[i].id in Merge(best, hits) && Merge(best, hits)[hits[i].id] == hits[i]
    decreases |hits|
  {
    if i == 0 {
      KeptAgainst(MergeOne(best, hits[0]), hits[1..], hits[0]);
    } else {
      FirstBestIsKept(MergeOne(best, hits[0]), hits[1..], i - 1);
    }
  }

  lemma {:induction false} KeptAgainst(best: map<Id, Hit>, hits: seq<Hit>, h: Hit)
    requires h.id in best && best[h.id] == h && forall g <- hits :: g.id == h.id ==> g.score <= h.score
    ensures h.id in Merge(best, hits) && Merge(best, hits)[h.id] == h
    decreases |hits|
  {
    if hits != [] {
      KeptAgainst(MergeOne(best, hits[0]), hits[1..], h);
    }
  }

  // ---- pinned rows ----

  // First occurrences of ids not seen before.
  function Pinned(seen: set<Id>, found: seq<Hit>): seq<Hit>
    decreases |found|
  {
    if found == [] then []
    else if found[0].id in seen then Pinned(seen, found[1..])
    else [found[0]] + Pinned(seen + {found[0].id}, found[1..])
  }

  lemma {:induction false} PinnedIds(seen: set<Id>, found: seq<Hit>)
    ensures IdsOf(Pinned(seen, found)) == IdsOf(found) - seen
    decreases |found|
  {
    if found != [] {
      var first, rest := found[0], found[1..];
      var grown := seen + {first.id};
      PinnedIds(grown, rest);
      IdsCons(first, rest);
      assert found == [first] + rest;
      if first.id in seen {
        assert grown == seen;
      } else {
        IdsCons(first, Pinned(grown, rest));
      }
    }
  }

  lemma IdsCons(first: Hit, rest: seq<Hit>)
    ensures IdsOf([first] + rest) == {first.id} + IdsOf(rest)
  {
    forall id ensures id in IdsOf([first] + rest) <==> id == first.id || id in IdsOf(rest) {
      if id == first.id {
        assert ([first] + rest)[0].id == id;
      } else if id in IdsOf(rest) {
        var h :| h in rest && h.id == id;
        assert h in [first] + rest;
      }
    }
  }

  // The pinned rows have distinct ids, those found that are not among the hits.
  lemma {:induction false} PinnedAreNew(seen: set<Id>, found: seq<Hit>)
    ensures
      var pinned := Pinned(seen, found);
      DistinctIds(pinned) && IdsOf(pinned) == IdsOf(found) - seen && forall h <- pinned :: h in found
    decreases |found|
  {
    PinnedIds(seen, found);
    if found != [] {
      var first, rest := found[0], found[1..];
      if first.id in seen {
        PinnedAreNew(seen, rest);
      } else {
        var later := Pinned(seen + {first.id}, rest);
        PinnedAreNew(seen + {first.id}, rest);
        forall i | 0 <= i < |later| ensures later[i].id != first.id {
          assert later[i].id in IdsOf(later);
        }
      }
    }
  }

  // Nothing is listed exactly when nothing was found.
  lemma EmptyExactlyWhenNothingFound(found: seq<Hit>, hits: seq<Hit>, limit: nat, pinnable: seq<Hit>)
    requires IsRanking(found, hits, limit) && limit > 0
    ensures hits == [] && Pinned(IdsOf(hits), pinnable) == [] <==> found == [] && pinnable == []
  {
    if found != [] {
      assert Placed(hits, limit, found[0]);
    }
    assert hits != [] ==> hits[0] in hits;
  }

  // ---- the hook ----

  datatype Recalled = Recalled(hits: seq<Hit>, pinned: seq<Hit>)

  datatype Decision = Continue | Replace(messages: seq<Json>)

  // A trailing user message with something in it.
  predicate AsksSomething(messages: seq<Json>)
  {
    LastUserText(messages).Some? && !Blank(LastUserText(messages).value)
  }

  class MemoryRecallHook {
    const limit: Positive
    const hint: Recalled -> string
    var fired: set<RunId>

    constructor (limit: nat, hint: Recalled -> string)
      ensures this.limit == (if limit == 0 then 15 else limit)
      ensures this.hint == hint && fired == {}
    {
      this.limit := if limit == 0 then DEFAULT_LIMIT else limit;
      this.hint := hint;
      fired := {};
    }

    // `searches` holds one result per owner and class, `pinnedSearches` likewise;
    // `iteration` is the order in which the map gives its values. Whatever comes of
    // it, the run is marked, and a marked run is left alone until it stops.
    method BeforeLlm(run: RunId, messages: seq<Json>, searches: seq<seq<Hit>>, iteration: set<Id> -> seq<Id>,
                     pinnedSearches: seq<seq<Hit>>)
      returns (r: Decision, recalled: Recalled)
      requires forall keys :: Enumerates(iteration(keys), keys)
      modifies `fired
      ensures fired == old(fired) + {run}
      ensures r.Replace? <==> run !in old(fired) && AsksSomething(messages)
                              && (Concat(searches) != [] || Concat(pinnedSearches) != [])
      ensures r.Replace? ==>
                && IsRanking(Concat(searches), recalled.hits, limit)
                && recalled.pinned == Pinned(IdsOf(recalled.hits), Concat(pinnedSearches))
                && Prepend(messages, hint(recalled)) == Some(r.messages)
    {
      r, recalled := Continue, Recalled([], []);
      if run in fired {
        return;
      }
      fired := fired + {run};
      var query := ExtractLastUserText(messages);
      if query.None? {
        return;
      }
      TrimBlank(query.value);
      if Trim(query.value) == [] {
        return;
      }
      recalled := RecallFrom(searches, iteration, pinnedSearches);
      EmptyExactlyWhenNothingFound(Concat(searches), recalled.hits, limit, Concat(pinnedSearches));
      if recalled.hits == [] && recalled.pinned == [] {
        return;
      }
      PrependKeepsTheRest(messages, hint(recalled));
      r := Replace(Prepend(messages, hint(recalled)).value);
    }

    method RecallFrom(searches: seq<seq<Hit>>, iteration: set<Id> -> seq<Id>, pinnedSearches: seq<seq<Hit>>)
      returns (recalled: Recalled)
      requires forall keys :: Enumerates(iteration(keys), keys)
      ensures IsRanking(Concat(searches), recalled.hits, limit)
      ensures recalled.pinned == Pinned(IdsOf(recalled.hits), Concat(pinnedSearches))
    {
      var byId := MergeSearches(searches);
      var order := iteration(byId.Keys);
      RankingIsRight(Concat(searches), order, limit);
      var hits := Take(SortHits(ValuesIn(byId, order)), limit);
      var pinned := PinSearches(IdsOf(hits), pinnedSearches);
      recalled := Recalled(hits, pinned);
    }

    method OnStop(run: RunId)
      modifies `fired
      ensures fired == old(fired) - {run}
    {
      fired := fired - {run};
    }
  }

  method MergeSearches(searches: seq<seq<Hit>>) returns (byId: map<Id, Hit>)
    ensures byId == Merge(map[], Concat(searches))
  {
    byId := map[];
    assert searches[0..] == searches;
    for i := 0 to |searches|
      invariant Merge(byId, Concat(searches[i..])) == Merge(map[], Concat(searches))
    {
      MergeSearch(byId, searches, i);
      byId := MergeHits(byId, searches[i]);
    }
  }

  method PinSearches(hits: set<Id>, searches: seq<seq<Hit>>) returns (pinned: seq<Hit>)
    ensures pinned == Pinned(hits, Concat(searches))
  {
    pinned := [];
    var seen := hits;
    assert searches[0..] == searches;
    for i := 0 to |searches|
      invariant pinned + Pinned(seen, Concat(searches[i..])) == Pinned(hits, Concat(searches))
    {
      PinSearch(pinned, seen, searches, i);
      pinned, seen := PinHits(pinned, seen, searches[i]);
    }
    assert pinned + [] == pinned;
  }

  method MergeHits(best: map<Id, Hit>, hits: seq<Hit>) returns (byId: map<Id, Hit>)
    ensures byId == Merge(best, hits)
  {
    byId := best;
    assert hits[0..] == hits;
    for i := 0 to |hits|
      invariant Merge(byId, hits[i..]) == Merge(best, hits)
    {
      assert hits[i..][1..] == hits[i + 1..];
      var hit := hits[i];
      if hit.id !in byId || hit.score > byId[hit.id].score {
        byId := byId[hit.id := hit];
      }
    }
  }

  lemma {:induction false} MergeConcat(best: map<Id, Hit>, a: seq<Hit>, b: seq<Hit>)
    ensures Merge(best, a + b) == Merge(Merge(best, a), b)
    decreases |a|
  {
    if a == [] {
      assert a + b == b;
    } else {
      assert (a + b)[1..] == a[1..] + b;
      MergeConcat(MergeOne(best, a[0]), a[1..], b);
    }
  }

  lemma MergeSearch(best: map<Id, Hit>, searches: seq<seq<Hit>>, i: nat)
    requires i < |searches|
    ensures Merge(best, Concat(searches[i..])) == Merge(Merge(best, searches[i]), Concat(searches[i + 1..]))
  {
    assert searches[i..][1..] == searches[i + 1..];
    MergeConcat(best, searches[i], Concat(searches[i + 1..]));
  }

  method PinHits(before: seq<Hit>, known: set<Id>, hits: seq<Hit>) returns (pinned: seq<Hit>, seen: set<Id>)
    ensures pinned == before + Pinned(known, hits) && seen == known + IdsOf(hits)
  {
    pinned, seen := before, known;
    assert hits[0..] == hits;
    for i := 0 to |hits|
      invariant pinned + Pinned(seen, hits[i..]) == before + Pinned(known, hits)
      invariant seen + IdsOf(hits[i..]) == known + IdsOf(hits)
    {
      PinHit(pinned, seen, hits[i], hits[i + 1..]);
      assert hits[i..] == [hits[i]] + hits[i + 1..];
      if hits[i].id !in seen {
        seen := seen + {hits[i].id};
        pinned := pinned + [hits[i]];
      }
    }
    assert pinned + [] == pinned && seen + {} == seen;
  }

  lemma PinHit(pinned: seq<Hit>, seen: set<Id>, hit: Hit, rest: seq<Hit>)
    ensures pinned + Pinned(seen, [hit] + rest)
         == if hit.id in seen then pinned + Pinned(seen, rest) else pinned + [hit] + Pinned(seen + {hit.id}, rest)
    ensures seen + IdsOf([hit] + rest) == (seen + {hit.id}) + IdsOf(rest)
    ensures hit.id in seen ==> seen + {hit.id} == seen
  {
    assert ([hit] + rest)[1..] == rest;
    IdsCons(hit, rest);
    Associative(pinned, [hit], Pinned(seen + {hit.id}, rest));
  }

  lemma {:induction false} PinConcat(seen: set<Id>, a: seq<Hit>, b: seq<Hit>)
    ensures Pinned(seen, a + b) == Pinned(seen, a) + Pinned(seen + IdsOf(a), b)
    decreases |a|
  {
    if a == [] {
      assert a + b == b && seen + IdsOf(a) == seen;
      assert [] + Pinned(seen, b) == Pinned(seen, b);
    } else {
      var grown := seen + {a[0].id};
      assert (a + b)[1..] == a[1..] + b;
      assert a == [a[0]] + a[1..];
      assert grown + IdsOf(a[1..]) == seen + IdsOf(a);
      if a[0].id in seen {
        assert grown == seen;
        PinConcat(seen, a[1..], b);
      } else {
        PinConcat(grown, a[1..], b);
        Associative([a[0]], Pinned(grown, a[1..]), Pinned(seen + IdsOf(a), b));
      }
    }
  }

  lemma PinSearch(pinned: seq<Hit>, seen: set<Id>, searches: seq<seq<Hit>>, i: nat)
    requires i < |searches|
    ensures pinned + Pinned(seen, Concat(searches[i..]))
         == pinned + Pinned(seen, searches[i]) + Pinned(seen + IdsOf(searches[i]), Concat(searches[i + 1..]))
  {
    assert searches[i..][1..] == searches[i + 1..];
    PinConcat(seen, searches[i], Concat(searches[i + 1..]));
    Associative(pinned, Pinned(seen, searches[i]), Pinned(seen + IdsOf(searches[i]), Concat(searches[i + 1..])));
  }
}
