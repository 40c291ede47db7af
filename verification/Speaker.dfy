// Choosing the speaker among the matched voice profiles, with the confidences given.
module Speaker {
  import opened Prelude

  datatype Match = Match(profile: string, confidence: nat)

  function Confidence(m: Match): int
  {
    m.confidence
  }

  // What an unstable sort by descending confidence may make of the profiles.
  predicate SortOf(sorted: seq<Match>, profiles: seq<Match>)
  {
    Descending(sorted, Confidence) && multiset(sorted) == multiset(profiles)
  }

  function SaturatingSub(a: nat, b: nat): nat
  {
    if a < b then 0 else a - b
  }

  function RunnerUp(sorted: seq<Match>): nat
  {
    if |sorted| > 1 then sorted[1].confidence else 0
  }

  // The best match, if it is good enough and far enough ahead.
  function Choose(sorted: seq<Match>, threshold: nat, margin: nat): Option<Match>
  {
    if sorted == [] then None
    else if sorted[0].confidence < threshold || SaturatingSub(sorted[0].confidence, RunnerUp(sorted)) < margin then None
    else Some(sorted[0])
  }

  lemma SameTop(a: seq<Match>, b: seq<Match>)
    requires Descending(a, Confidence) && Descending(b, Confidence) && multiset(a) == multiset(b)
    ensures |a| == |b| && (a != [] ==> a[0].confidence == b[0].confidence)
  {
    assert |a| == |multiset(a)| && |b| == |multiset(b)|;
    if a != [] {
      assert a[0] in multiset(b) && b[0] in multiset(a);
    }
  }

  lemma DropFirst(a: seq<Match>, b: seq<Match>)
    requires a != [] && b != [] && a[0] == b[0] && multiset(a) == multiset(b)
    ensures multiset(a[1..]) == multiset(b[1..])
  {
    assert a == [a[0]] + a[1..] && b == [b[0]] + b[1..];
    assert multiset(a[1..]) == multiset(a) - multiset{a[0]};
    assert multiset(b[1..]) == multiset(b) - multiset{b[0]};
  }

  // When another match sorts first elsewhere, the two tie, here at places one and two.
  lemma OtherFirstMeansTie(a: seq<Match>, b: seq<Match>)
    requires Descending(a, Confidence) && Descending(b, Confidence) && multiset(a) == multiset(b) && a != [] && b != [] && a[0] != b[0]
    ensures RunnerUp(a) == a[0].confidence
  {
    SameTop(a, b);
    assert b[0] in multiset(a);
    var k :| 0 <= k < |a| && a[k] == b[0];
  }

  lemma SameFirstSameChoice(a: seq<Match>, b: seq<Match>, threshold: nat, margin: nat)
    requires Descending(a, Confidence) && Descending(b, Confidence) && multiset(a) == multiset(b)
    requires a != [] && b != [] && a[0] == b[0]
    ensures Choose(a, threshold, margin) == Choose(b, threshold, margin)
  {
    DropFirst(a, b);
    SameTop(a[1..], b[1..]);
    assert RunnerUp(a) == RunnerUp(b);
  }

  // With a margin of at least one the choice does not depend on the order the
  // profiles are configured in, nor on how the sort arranges equals.
  lemma OrderDoesNotMatter(a: seq<Match>, b: seq<Match>, profiles: seq<Match>, others: seq<Match>, threshold: nat, margin: nat)
    requires margin >= 1 && SortOf(a, profiles) && SortOf(b, others) && multiset(profiles) == multiset(others)
    ensures Choose(a, threshold, margin) == Choose(b, threshold, margin)
  {
    SameTop(a, b);
    if a != [] {
      if a[0] == b[0] {
        SameFirstSameChoice(a, b, threshold, margin);
      } else {
        OtherFirstMeansTie(a, b);
        OtherFirstMeansTie(b, a);
      }
    }
  }

  // Some other arrangement of the same matches is chosen differently.
  ghost predicate OrderMatters(a: seq<Match>, threshold: nat, margin: nat)
  {
    exists b :: SortOf(b, a) && Choose(a, threshold, margin) != Choose(b, threshold, margin)
  }

  // A different match is as confident as the first one.
  predicate TiesWithFirst(a: seq<Match>, k: nat)
    requires a != []
  {
    k < |a| && a[k] != a[0] && a[k].confidence == a[0].confidence
  }

  function Swapped(a: seq<Match>, k: nat): (b: seq<Match>)
    requires 0 < k < |a|
    ensures |b| == |a|
  {
    a[0 := a[k]][k := a[0]]
  }

  lemma SwapIsSort(a: seq<Match>, k: nat)
    requires Descending(a, Confidence) && 0 < k < |a| && a[k].confidence == a[0].confidence
    ensures SortOf(Swapped(a, k), a)
  {
    var b := Swapped(a, k);
    SwapIsPermutation(a, k);
    forall i | 0 <= i < |a| ensures Confidence(b[i]) == Confidence(a[i]) {
    }
  }

  lemma SwapIsPermutation(a: seq<Match>, k: nat)
    requires 0 < k < |a|
    ensures multiset(Swapped(a, k)) == multiset(a)
  {
    var mid := a[0 := a[k]];
    assert multiset(mid) == multiset(a) - multiset{a[0]} + multiset{a[k]};
    assert mid[k] == a[k];
  }

  // The choice depends on how the sort arranges equals exactly when there is no
  // margin to keep and the best match is good enough but not the only best.
  lemma OrderMattersExactlyWhen(a: seq<Match>, threshold: nat, margin: nat)
    requires Descending(a, Confidence)
    ensures OrderMatters(a, threshold, margin)
       <==> margin == 0 && a != [] && a[0].confidence >= threshold && exists k: nat :: TiesWithFirst(a, k)
  {
    if OrderMatters(a, threshold, margin) {
      var b :| SortOf(b, a) && Choose(a, threshold, margin) != Choose(b, threshold, margin);
      DifferentChoiceMeansTie(a, b, threshold, margin);
    }
    if margin == 0 && a != [] && a[0].confidence >= threshold && exists k: nat :: TiesWithFirst(a, k) {
      var k: nat :| TiesWithFirst(a, k);
      SwapIsSort(a, k);
      assert Choose(Swapped(a, k), threshold, 0) == Some(a[k]);
    }
  }

  lemma DifferentChoiceMeansTie(a: seq<Match>, b: seq<Match>, threshold: nat, margin: nat)
    requires Descending(a, Confidence) && SortOf(b, a) && Choose(a, threshold, margin) != Choose(b, threshold, margin)
    ensures margin == 0 && a != [] && a[0].confidence >= threshold && exists k: nat :: TiesWithFirst(a, k)
  {
    SameTop(a, b);
    if margin >= 1 {
      OrderDoesNotMatter(a, b, a, a, threshold, margin);
    }
    if a[0] == b[0] {
      SameFirstSameChoice(a, b, threshold, margin);
    }
    assert b[0] in multiset(a);
    var k :| 0 <= k < |a| && a[k] == b[0];
    assert TiesWithFirst(a, k);
  }

  // A match is chosen exactly when it comes first, reaches the threshold, and is
  // ahead of every other, and of no match at all, by the margin.
  lemma ChosenExactlyWhen(a: seq<Match>, threshold: nat, margin: nat, m: Match)
    requires Descending(a, Confidence)
    ensures Choose(a, threshold, margin) == Some(m)
       <==> a != [] && m == a[0] && m.confidence >= threshold && m.confidence >= margin
            && forall k | 1 <= k < |a| :: m.confidence >= a[k].confidence + margin
  {
    if |a| > 1 {
      assert forall k | 1 <= k < |a| :: Confidence(a[1]) >= Confidence(a[k]);
      assert Confidence(a[0]) >= Confidence(a[1]);
    }
  }

  // `m` is good enough, and ahead of every other profile by the margin.
  predicate Leads(profiles: seq<Match>, m: Match, threshold: nat, margin: nat)
  {
    && m in profiles && m.confidence >= threshold && m.confidence >= margin && multiset(profiles)[m] == 1
    && forall p <- profiles :: p != m ==> m.confidence >= p.confidence + margin
  }

  lemma FirstIsSingle(a: seq<Match>)
    requires a != []
    ensures multiset(a)[a[0]] == 1 <==> a[0] !in a[1..]
  {
    assert a == [a[0]] + a[1..];
    assert multiset(a) == multiset{a[0]} + multiset(a[1..]);
    assert a[0] in a[1..] <==> multiset(a[1..])[a[0]] > 0;
  }

  lemma LeaderIsFirst(a: seq<Match>, m: Match, threshold: nat, margin: nat)
    requires margin >= 1 && Descending(a, Confidence) && Leads(a, m, threshold, margin)
    ensures a != [] && m == a[0]
  {
    var k :| 0 <= k < |a| && a[k] == m;
    assert Confidence(a[0]) >= Confidence(a[k]) && a[0] in a;
  }

  lemma LeadsExactlyWhenAhead(a: seq<Match>, threshold: nat, margin: nat)
    requires margin >= 1 && a != []
    ensures Leads(a, a[0], threshold, margin)
       <==> a[0].confidence >= threshold && a[0].confidence >= margin
            && forall k | 1 <= k < |a| :: a[0].confidence >= a[k].confidence + margin
  {
    FirstIsSingle(a);
    if Leads(a, a[0], threshold, margin) {
      forall k | 1 <= k < |a| ensures a[0].confidence >= a[k].confidence + margin {
        assert a[k] in a && a[1..][k - 1] == a[k];
      }
    }
  }

  // With a margin of at least one the choice is a matter of the profiles alone.
  lemma ChosenAmongProfiles(a: seq<Match>, profiles: seq<Match>, threshold: nat, margin: nat, m: Match)
    requires margin >= 1 && SortOf(a, profiles)
    ensures Choose(a, threshold, margin) == Some(m) <==> Leads(profiles, m, threshold, margin)
  {
    ChosenExactlyWhen(a, threshold, margin, m);
    LeadsInAnyOrder(a, profiles, m, threshold, margin);
    if a != [] {
      LeadsExactlyWhenAhead(a, threshold, margin);
    }
    if Leads(a, m, threshold, margin) {
      LeaderIsFirst(a, m, threshold, margin);
    }
  }

  lemma LeadsInAnyOrder(a: seq<Match>, b: seq<Match>, m: Match, threshold: nat, margin: nat)
    requires multiset(a) == multiset(b)
    ensures Leads(a, m, threshold, margin) <==> Leads(b, m, threshold, margin)
  {
    assert forall p :: p in a <==> p in multiset(a);
    assert forall p :: p in b <==> p in multiset(b);
  }
}
