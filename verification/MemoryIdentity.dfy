// Whose memory it is: identities of one person are folded into one owner, for
// writing and for recall, from the same configured groups.
module MemoryIdentity {
  import opened Prelude
  import opened Addressing

  // The configured users, each as the list of its owner strings.
  type Groups = seq<seq<string>>

  predicate IsTuiOwner(owner: string)
  {
    StripPrefix(owner, SCHEME).Some?
  }

  // The first owner that is no TUI identity, else the first of all.
  function FirstOther(owners: seq<string>): (r: Option<string>)
    ensures r.Some? ==> r.value in owners && !IsTuiOwner(r.value)
    ensures r.None? ==> forall o <- owners :: IsTuiOwner(o)
  {
    if owners == [] then None
    else if !IsTuiOwner(owners[0]) then Some(owners[0])
    else FirstOther(owners[1..])
  }

  function PreferredOwner(owners: seq<string>): (r: Option<string>)
    ensures r.Some? <==> owners != []
    ensures r.Some? ==> r.value in owners
  {
    var other := FirstOther(owners);
    if other.Some? then other else if owners == [] then None else Some(owners[0])
  }

  // The preferred owner is the first that is no TUI identity, and the first of all
  // when every one is.
  lemma {:induction false} PreferredIsFirstOther(owners: seq<string>, i: nat)
    requires i < |owners| && !StartsWith(owners[i], "tui:") && forall j | 0 <= j < i :: StartsWith(owners[j], "tui:")
    ensures PreferredOwner(owners) == Some(owners[i]) && FirstOther(owners) == Some(owners[i])
    decreases i
  {
    if i > 0 {
      PreferredIsFirstOther(owners[1..], i - 1);
    }
  }

  lemma PreferredIsFirstOfAll(owners: seq<string>)
    requires owners != [] && forall i | 0 <= i < |owners| :: StartsWith(owners[i], "tui:")
    ensures PreferredOwner(owners) == Some(owners[0])
  {
  }

  // The last configured group an owner appears in, which is the one that counts.
  function GroupOf(users: Groups, owner: string): (g: Option<seq<string>>)
    ensures g.Some? ==> g.value in users && owner in g.value
    ensures g.None? ==> forall group <- users :: owner !in group
  {
    if users == [] then None
    else if owner in users[|users| - 1] then Some(users[|users| - 1])
    else GroupOf(users[..|users| - 1], owner)
  }

  // The owner a group's members write under.
  function Canonical(group: seq<string>): string
  {
    if group == [] then [] else PreferredOwner(group).value
  }

  function Whole(group: seq<string>): seq<string>
  {
    group
  }

  function CanonicalOwner(users: Groups, owner: string): string
  {
    match GroupOf(users, owner)
    case None => owner
    case Some(group) => Canonical(group)
  }

  function RecallOwners(users: Groups, owner: string): seq<string>
  {
    match GroupOf(users, owner)
    case None => [owner]
    case Some(group) => group
  }

  // ---- the two maps, filled in nested loops ----

  ghost predicate Fits<V>(m: map<string, V>, users: Groups, value: seq<string> -> V)
  {
    && (forall o | o in m :: GroupOf(users, o).Some? && m[o] == value(GroupOf(users, o).value))
    && forall g <- users, o <- g :: o in m
  }

  ghost predicate Inserted<V>(m: map<string, V>, owners: seq<string>, v: V, after: map<string, V>)
  {
    && (forall o :: o in after <==> o in m || o in owners)
    && forall o | o in after :: after[o] == if o in owners then v else m[o]
  }

  method InsertAll<V>(m: map<string, V>, owners: seq<string>, v: V) returns (after: map<string, V>)
    ensures Inserted(m, owners, v, after)
  {
    after := m;
    for j := 0 to |owners|
      invariant Inserted(m, owners[..j], v, after)
    {
      assert owners[..j + 1] == owners[..j] + [owners[j]];
      after := after[owners[j] := v];
    }
    assert owners[..|owners|] == owners;
  }

  lemma GroupFitsMore<V>(m: map<string, V>, users: Groups, group: seq<string>, value: seq<string> -> V, after: map<string, V>)
    requires Fits(m, users, value) && Inserted(m, group, value(group), after)
    ensures Fits(after, users + [group], value)
  {
    var all := users + [group];
    forall o | o in after ensures GroupOf(all, o).Some? && after[o] == value(GroupOf(all, o).value) {
      assert all[..|users|] == users;
    }
  }

  method OwnerAliases(users: Groups) returns (m: map<string, string>)
    ensures Fits(m, users, Canonical)
  {
    m := map[];
    for i := 0 to |users|
      invariant Fits(m, users[..i], Canonical)
    {
      assert users[..i + 1] == users[..i] + [users[i]];
      var canonical := PreferredOwner(users[i]);
      ghost var before := m;
      if canonical.Some? {
        m := InsertAll(m, users[i], canonical.value);
      }
      GroupFitsMore(before, users[..i], users[i], Canonical, m);
    }
    assert users[..|users|] == users;
  }

  method OwnerMap(users: Groups) returns (m: map<string, seq<string>>)
    ensures Fits(m, users, Whole)
  {
    m := map[];
    for i := 0 to |users|
      invariant Fits(m, users[..i], Whole)
    {
      assert users[..i + 1] == users[..i] + [users[i]];
      ghost var before := m;
      m := InsertAll(m, users[i], users[i]);
      GroupFitsMore(before, users[..i], users[i], Whole, m);
    }
    assert users[..|users|] == users;
  }

  // Looking an owner up in the maps is what the two functions say.
  lemma MapsAnswer(users: Groups, aliases: map<string, string>, owners: map<string, seq<string>>, key: string)
    requires Fits(aliases, users, Canonical) && Fits(owners, users, Whole)
    ensures CanonicalOwner(users, key) == if key in aliases then aliases[key] else key
    ensures RecallOwners(users, key) == if key in owners then owners[key] else [key]
  {
  }

  // ---- one person, one owner ----

  // What is written under a key's default owner is always found again: that owner
  // is among those recalled for the key, however the groups overlap.
  lemma WriteOwnerIsRecalled(users: Groups, key: string)
    ensures CanonicalOwner(users, key) in RecallOwners(users, key)
  {
  }

  predicate Disjoint(users: Groups)
  {
    forall i, j, o | 0 <= i < j < |users| && o in users[i] :: o !in users[j]
  }

  lemma GroupIsUnique(users: Groups, group: seq<string>, owner: string)
    requires Disjoint(users) && group in users && owner in group
    ensures GroupOf(users, owner) == Some(group)
  {
    var g := GroupOf(users, owner).value;
    var i :| 0 <= i < |users| && users[i] == group;
    var j :| 0 <= j < |users| && users[j] == g;
  }

  // With disjoint groups all of a person's identities share one owner, which
  // stands for itself.
  lemma IdentitiesShareOneOwner(users: Groups, group: seq<string>, a: string, b: string)
    requires Disjoint(users) && group in users && a in group && b in group
    ensures CanonicalOwner(users, a) == CanonicalOwner(users, b) == PreferredOwner(group).value
    ensures RecallOwners(users, a) == RecallOwners(users, b) == group
  {
    GroupIsUnique(users, group, a);
    GroupIsUnique(users, group, b);
  }

  // With disjoint groups every identity of a person is written under the person's
  // first identity that is no TUI one, or, without such, under the first.
  lemma CanonicalIsFirstOther(users: Groups, group: seq<string>, a: string, i: nat)
    requires Disjoint(users) && group in users && a in group && i < |group|
    requires
      || (!StartsWith(group[i], "tui:") && forall j | 0 <= j < i :: StartsWith(group[j], "tui:"))
      || (i == 0 && forall j | 0 <= j < |group| :: StartsWith(group[j], "tui:"))
    ensures CanonicalOwner(users, a) == group[i]
  {
    GroupIsUnique(users, group, a);
    if StartsWith(group[i], "tui:") {
      PreferredIsFirstOfAll(group);
    } else {
      PreferredIsFirstOther(group, i);
    }
  }

  lemma CanonicalIsIdempotent(users: Groups, owner: string)
    requires Disjoint(users)
    ensures CanonicalOwner(users, CanonicalOwner(users, owner)) == CanonicalOwner(users, owner)
  {
    var g := GroupOf(users, owner);
    if g.Some? {
      IdentitiesShareOneOwner(users, g.value, owner, CanonicalOwner(users, owner));
    }
  }

  // ---- groups that overlap ----

  // `users[i]` is the last group that lists `o`.
  predicate Rules(users: Groups, i: nat, o: string)
  {
    i < |users| && o in users[i] && forall j | i < j < |users| :: o !in users[j]
  }

  lemma {:induction false} RulesIsGroupOf(users: Groups, i: nat, o: string)
    requires Rules(users, i, o)
    ensures GroupOf(users, o) == Some(users[i])
    decreases |users|
  {
    if i < |users| - 1 {
      RulesIsGroupOf(users[..|users| - 1], i, o);
    }
  }

  lemma {:induction false} SomeGroupRules(users: Groups, o: string) returns (i: nat)
    requires GroupOf(users, o).Some?
    ensures Rules(users, i, o) && GroupOf(users, o) == Some(users[i])
    decreases |users|
  {
    if o in users[|users| - 1] {
      i := |users| - 1;
    } else {
      i := SomeGroupRules(users[..|users| - 1], o);
    }
  }

  predicate OneOwner(users: Groups, group: seq<string>)
  {
    forall a <- group, b <- group :: CanonicalOwner(users, a) == CanonicalOwner(users, b)
  }

  // The groups that rule the members of `group` all prefer the same owner.
  ghost predicate OnePreference(users: Groups, group: seq<string>)
  {
    forall i: nat, j: nat, a, b | a in group && b in group && Rules(users, i, a) && Rules(users, j, b) ::
      Canonical(users[i]) == Canonical(users[j])
  }

  // The identities of a group share one owner exactly when the groups that rule
  // them prefer the same one, whether or not groups overlap.
  lemma GroupSharesExactlyWhen(users: Groups, group: seq<string>)
    requires group in users
    ensures OneOwner(users, group) <==> OnePreference(users, group)
  {
    forall i: nat, a | Rules(users, i, a) ensures CanonicalOwner(users, a) == Canonical(users[i]) {
      RulesIsGroupOf(users, i, a);
    }
    if OnePreference(users, group) {
      forall a <- group, b <- group ensures CanonicalOwner(users, a) == CanonicalOwner(users, b) {
        var i := SomeGroupRules(users, a);
        var j := SomeGroupRules(users, b);
      }
    }
  }

  ghost predicate CanonicalSettles(users: Groups)
  {
    forall o: string :: CanonicalOwner(users, CanonicalOwner(users, o)) == CanonicalOwner(users, o)
  }

  // A group that rules some owner prefers one that stands for itself.
  ghost predicate PreferencesSettle(users: Groups)
  {
    forall i: nat, j: nat, o | Rules(users, i, o) && Rules(users, j, Canonical(users[i])) ::
      Canonical(users[j]) == Canonical(users[i])
  }

  // The canonical owner stands for itself, for every owner, exactly when the
  // owner a ruling group prefers is ruled by a group that prefers it too.
  lemma CanonicalSettlesExactlyWhen(users: Groups)
    ensures CanonicalSettles(users) <==> PreferencesSettle(users)
  {
    forall i: nat, o | Rules(users, i, o) ensures CanonicalOwner(users, o) == Canonical(users[i]) {
      RulesIsGroupOf(users, i, o);
    }
    if CanonicalSettles(users) {
      forall i: nat, j: nat, o | Rules(users, i, o) && Rules(users, j, Canonical(users[i]))
        ensures Canonical(users[j]) == Canonical(users[i])
      {
        assert CanonicalOwner(users, CanonicalOwner(users, o)) == CanonicalOwner(users, o);
      }
    }
    if PreferencesSettle(users) {
      forall o: string ensures CanonicalOwner(users, CanonicalOwner(users, o)) == CanonicalOwner(users, o) {
        if GroupOf(users, o).Some? {
          var i := SomeGroupRules(users, o);
          var j := SomeGroupRules(users, Canonical(users[i]));
        }
      }
    }
  }

  // Both conditions can fail: here the later group rules an identity of the
  // earlier one and prefers a third.
  lemma OverlapSplitsAPerson() returns (users: Groups)
    ensures |users| == 2 && !OneOwner(users, users[0]) && !CanonicalSettles(users)
  {
    users := [["a", "b"], ["c", "a"]];
    assert users[..1] == [["a", "b"]];
    assert users[0][0] == "a" && users[0][1] == "b" && users[1][1] == "a";
    assert "b" !in users[1];
    assert CanonicalOwner(users, "b") == "a" && CanonicalOwner(users, "a") == "c";
  }

  // Or hold: two groups may share the identity they both prefer.
  lemma OverlapMaySplitNobody() returns (users: Groups)
    ensures |users| == 2 && !Disjoint(users) && OneOwner(users, users[0]) && OneOwner(users, users[1])
  {
    users := [["a", "b"], ["a", "c"]];
    assert "a" in users[0] && "a" in users[1];
    assert users[..1] == [["a", "b"]];
    forall o | o in users[0] || o in users[1] ensures CanonicalOwner(users, o) == "a" {
      assert o == "a" || o == "b" || o == "c";
      assert !IsTuiOwner("a");
    }
  }
}
