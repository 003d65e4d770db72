/** The tier-unlock rules of checkTierUnlocks: completion counts per category, the
    requirement table, and which tiers a set of counts unlocks. */
module Tiers {
  import opened QuestTypes

  /** At least `count` completions in quests of category `tier`. */
  datatype Requirement = Requirement(tier: string, count: nat)

  /** A tier and the requirements that unlock it. */
  datatype TierRule = TierRule(tier: string, requirements: seq<Requirement>)

  /** The requirement table, in the order the engine walks it. The base tier has no
      rule: every user holds it from the start. */
  const TIER_REQUIREMENTS: seq<TierRule> := [
    TierRule("safety", [Requirement("physiological", 10)]),
    TierRule("security", [Requirement("physiological", 5), Requirement("safety", 10)]),
    TierRule("love", [Requirement("physiological", 5), Requirement("safety", 5), Requirement("security", 10)]),
    TierRule("belonging", [Requirement("physiological", 5), Requirement("safety", 5), Requirement("security", 5),
                           Requirement("love", 10)]),
    TierRule("esteem", [Requirement("physiological", 5), Requirement("safety", 5), Requirement("security", 5),
                        Requirement("love", 5), Requirement("belonging", 10)]),
    TierRule("self_actualization", [Requirement("physiological", 5), Requirement("safety", 5), Requirement("security", 5),
                                    Requirement("love", 5), Requirement("belonging", 5), Requirement("esteem", 10)])
  ]

  function TierNames(table: seq<TierRule>): (names: seq<string>)
    ensures |names| == |table|
    ensures forall i :: 0 <= i < |table| ==> names[i] == table[i].tier
  {
    seq(|table|, i requires 0 <= i < |table| => table[i].tier)
  }

  predicate DistinctTiers(table: seq<TierRule>) {
    forall i, j :: 0 <= i < j < |table| ==> table[i].tier != table[j].tier
  }

  /** A completed row of `user` whose quest has category `tier` (the JOIN and WHERE of the count query). */
  predicate CountsFor(h: HistoryEntry, catalog: seq<QuestDefinition>, user: string, tier: string) {
    h.userId == user && h.state == Completed &&
    FindQuest(catalog, h.questId).Some? && FindQuest(catalog, h.questId).value.category == tier
  }

  /** How many completed rows of `user` fall in category `tier`, over the whole history. */
  function CompletedIn(history: seq<HistoryEntry>, catalog: seq<QuestDefinition>, user: string, tier: string): (n: nat)
    ensures n <= |history|
    ensures n > 0 <==> exists i :: 0 <= i < |history| && CountsFor(history[i], catalog, user, tier)
  {
    if history == [] then 0
    else
      assert forall i :: 1 <= i < |history| ==> history[i] == history[1..][i - 1];
      CompletedIn(history[1..], catalog, user, tier) + (if CountsFor(history[0], catalog, user, tier) then 1 else 0)
  }

  /** The categories that occur among the user's completed rows. */
  function CompletedCategories(history: seq<HistoryEntry>, catalog: seq<QuestDefinition>, user: string): set<string> {
    set i | 0 <= i < |history| && history[i].userId == user && history[i].state == Completed &&
            FindQuest(catalog, history[i].questId).Some?
          :: FindQuest(catalog, history[i].questId).value.category
  }

  /** The GROUP BY result: one count per category that has completions. */
  function CompletionCounts(history: seq<HistoryEntry>, catalog: seq<QuestDefinition>, user: string): map<string, nat> {
    map t | t in CompletedCategories(history, catalog, user) :: CompletedIn(history, catalog, user, t)
  }

  /** counts[tier] || 0 */
  function CountOr0(counts: map<string, nat>, tier: string): nat {
    if tier in counts then counts[tier] else 0
  }

  /** Every requirement of a rule is met (the `every` of checkTierUnlocks). */
  predicate MeetsRequirements(requirements: seq<Requirement>, counts: map<string, nat>) {
    forall i :: 0 <= i < |requirements| ==> CountOr0(counts, requirements[i].tier) >= requirements[i].count
  }

  /** The tiers of `table` that are not yet unlocked and whose requirements are met, in table order. */
  function NewTiers(table: seq<TierRule>, unlocked: seq<string>, counts: map<string, nat>): seq<string> {
    if table == [] then []
    else
      var rule := table[|table| - 1];
      NewTiers(table[..|table| - 1], unlocked, counts) +
        (if rule.tier !in unlocked && MeetsRequirements(rule.requirements, counts) then [rule.tier] else [])
  }

  /** `a` is `b` with some elements left out, the rest kept in order. */
  predicate IsSubsequence(a: seq<string>, b: seq<string>)
    decreases |b|
  {
    if a == [] then true
    else if b == [] then false
    else if a[|a| - 1] == b[|b| - 1] then IsSubsequence(a[..|a| - 1], b[..|b| - 1])
    else IsSubsequence(a, b[..|b| - 1])
  }

  /** The lookup in the grouped counts gives the count over the whole history, 0 included. */
  lemma CountOr0IsCompletedIn(history: seq<HistoryEntry>, catalog: seq<QuestDefinition>, user: string, tier: string)
    ensures CountOr0(CompletionCounts(history, catalog, user), tier) == CompletedIn(history, catalog, user, tier)
  {
    if CompletedIn(history, catalog, user, tier) > 0 {
      var i :| 0 <= i < |history| && CountsFor(history[i], catalog, user, tier);
      assert tier in CompletedCategories(history, catalog, user);
    }
  }

  /** A tier is newly unlocked exactly when it has a rule, is not unlocked yet and meets every requirement. */
  lemma {:induction false} NewTiersMembers(table: seq<TierRule>, unlocked: seq<string>, counts: map<string, nat>, t: string)
    ensures t in NewTiers(table, unlocked, counts) <==>
            t !in unlocked && exists i :: 0 <= i < |table| && table[i].tier == t && MeetsRequirements(table[i].requirements, counts)
  {
    if table != [] {
      var init := table[..|table| - 1];
      NewTiersMembers(init, unlocked, counts, t);
      assert forall i :: 0 <= i < |init| ==> init[i] == table[i];
    }
  }

  /** Newly unlocked tiers come in table order. */
  lemma {:induction false} NewTiersInTableOrder(table: seq<TierRule>, unlocked: seq<string>, counts: map<string, nat>)
    ensures IsSubsequence(NewTiers(table, unlocked, counts), TierNames(table))
  {
    if table != [] {
      var init := table[..|table| - 1];
      NewTiersInTableOrder(init, unlocked, counts);
      assert TierNames(table)[..|table| - 1] == TierNames(init);
      var rest := NewTiers(init, unlocked, counts);
      if NewTiers(table, unlocked, counts) != rest {
        assert NewTiers(table, unlocked, counts)[..|rest|] == rest;
      } else {
        DropLastKeepsSubsequence(rest, TierNames(table));
      }
    }
  }

  lemma {:induction false} DropLastKeepsSubsequence(a: seq<string>, b: seq<string>)
    requires b != []
    requires IsSubsequence(a, b[..|b| - 1])
    ensures IsSubsequence(a, b)
    decreases |b|, |a|
  {
    if a != [] && a[|a| - 1] == b[|b| - 1] {
      var b' := b[..|b| - 1];
      assert b' != [];
      SubsequenceDropLast(a, b');
    }
  }

  /** Dropping the last element of `a` keeps it a subsequence. */
  lemma {:induction false} SubsequenceDropLast(a: seq<string>, b: seq<string>)
    requires a != []
    requires IsSubsequence(a, b)
    ensures IsSubsequence(a[..|a| - 1], b)
    decreases |b|, |a|
  {
    assert b != [];
    var b' := b[..|b| - 1];
    if a[|a| - 1] == b[|b| - 1] {
      if b' != [] {
        DropLastKeepsSubsequence(a[..|a| - 1], b);
      }
    } else {
      SubsequenceDropLast(a, b');
      if b' != [] {
        DropLastKeepsSubsequence(a[..|a| - 1], b);
      }
    }
  }

  /** Idempotence: once the new tiers are appended, the same counts unlock nothing more. */
  lemma NewTiersIdempotent(table: seq<TierRule>, unlocked: seq<string>, counts: map<string, nat>)
    ensures NewTiers(table, unlocked + NewTiers(table, unlocked, counts), counts) == []
  {
    var added := NewTiers(table, unlocked, counts);
    var after := NewTiers(table, unlocked + added, counts);
    if after != [] {
      var t := after[0];
      assert t in after;
      NewTiersMembers(table, unlocked + added, counts, t);
      NewTiersMembers(table, unlocked, counts, t);
      assert false;
    }
  }

  lemma TableTiersDistinct()
    ensures DistinctTiers(TIER_REQUIREMENTS)
  {
  }

  /** With ten base-tier completions and nothing else, "safety" unlocks and "security"
      (which also needs ten "safety" completions) does not. */
  lemma TenBaseCompletionsExample()
    ensures NewTiers(TIER_REQUIREMENTS, [BASE_TIER], map[BASE_TIER := 10]) == ["safety"]
  {
    var counts := map[BASE_TIER := 10];
    assert CountOr0(counts, "safety") == 0;
    assert !MeetsRequirements(TIER_REQUIREMENTS[1].requirements, counts) by {
      assert TIER_REQUIREMENTS[1].requirements[1] == Requirement("safety", 10);
    }
    assert !MeetsRequirements(TIER_REQUIREMENTS[2].requirements, counts) by {
      assert TIER_REQUIREMENTS[2].requirements[1] == Requirement("safety", 5);
    }
    assert !MeetsRequirements(TIER_REQUIREMENTS[3].requirements, counts) by {
      assert TIER_REQUIREMENTS[3].requirements[1] == Requirement("safety", 5);
    }
    assert !MeetsRequirements(TIER_REQUIREMENTS[4].requirements, counts) by {
      assert TIER_REQUIREMENTS[4].requirements[1] == Requirement("safety", 5);
    }
    assert !MeetsRequirements(TIER_REQUIREMENTS[5].requirements, counts) by {
      assert TIER_REQUIREMENTS[5].requirements[1] == Requirement("safety", 5);
    }
    assert MeetsRequirements(TIER_REQUIREMENTS[0].requirements, counts);
    var t := TIER_REQUIREMENTS;
    var u := [BASE_TIER];
    assert t[..1][..0] == [];
    assert NewTiers(t[..1], u, counts) == ["safety"];
    assert t[..2][..1] == t[..1];
    assert NewTiers(t[..2], u, counts) == ["safety"];
    assert t[..3][..2] == t[..2];
    assert NewTiers(t[..3], u, counts) == ["safety"];
    assert t[..4][..3] == t[..3];
    assert NewTiers(t[..4], u, counts) == ["safety"];
    assert t[..5][..4] == t[..4];
    assert NewTiers(t[..5], u, counts) == ["safety"];
    assert t[..6][..5] == t[..5];
    assert t[..6] == t;
  }
}
