/** The quest engine over its three tables: quest_definitions (read-only), users and
    user_quest_history. Each public and private operation of QuestEngine is a method
    that follows the source's steps in order; the tables are fields the methods reassign. */
module Engine {
  import opened QuestTypes
  import opened Availability
  import opened Weights
  import opened Selection
  import opened Completion
  import opened Tiers

  /** How far back the recent history used for weighting reaches. */
  const RECENT_DAYS: int := 7

  /** quest_definitions.id is the table's key. */
  predicate UniqueIds(catalog: seq<QuestDefinition>) {
    forall i, j :: 0 <= i < j < |catalog| ==> catalog[i].id != catalog[j].id
  }

  /** Every stored level is the one the stored total XP stands for: users start at
      0 XP and level 1, and completeQuest writes the level its formula gives. */
  predicate LevelsFollowXp(users: map<string, UserRecord>) {
    forall id :: id in users ==> users[id].currentLevel == LevelFor(users[id].totalXp)
  }

  /** Every completed row carries its completion time and its XP. */
  predicate CompletionsStamped(history: seq<HistoryEntry>) {
    forall i :: 0 <= i < |history| && history[i].state == Completed ==>
      history[i].completedAt.Some? && history[i].xpEarned.Some?
  }

  /** The row createQuestInstance inserts: active, assigned now, due `durationDays` days
      later, no progress yet. */
  function NewInstance(userId: string, quest: QuestDefinition, now: int): (h: HistoryEntry)
    ensures h.userId == userId && h.questId == quest.id && h.state == Active
    ensures h.deadline - h.assignedAt == quest.durationDays * DAY_MS
  {
    HistoryEntry(userId, quest.id, Active, now, now + quest.durationDays * DAY_MS, None, None, 0)
  }

  /** The statistics getUserStats reads from a user row. */
  function StatsOf(user: UserRecord): UserStats {
    UserStats(user.currentLevel, DecodeTiers(user.unlockedTiers), user.totalXp)
  }

  /** The stored tier list after a tier check: the list a reader sees grows by exactly
      the new tiers, and the column is written only when something unlocked. */
  function UnlockedAfter(stored: Option<seq<string>>, newTiers: seq<string>): (r: Option<seq<string>>)
    ensures DecodeTiers(r) == DecodeTiers(stored) + newTiers
    ensures r == stored <==> newTiers == []
  {
    if |newTiers| > 0 then Some(DecodeTiers(stored) + newTiers) else stored
  }

  /** A row the recent-history query returns: a completion of `user` after the cutoff
      RECENT_DAYS days before `now`, whose quest is in the catalog. */
  predicate IsRecentRow(h: HistoryEntry, catalog: seq<QuestDefinition>, user: string, now: int) {
    h.userId == user && h.state == Completed && h.completedAt.Some? &&
    h.completedAt.value > now - RECENT_DAYS * DAY_MS && FindQuest(catalog, h.questId).Some?
  }

  /** The rows of the recent-history query joined with their quest, in history order. */
  function RecentRows(history: seq<HistoryEntry>, catalog: seq<QuestDefinition>, user: string, now: int): (r: seq<RecentCompletion>)
    ensures |r| <= |history|
    ensures forall k :: 0 <= k < |r| ==>
              r[k].completedAt > now - RECENT_DAYS * DAY_MS &&
              FindQuest(catalog, r[k].questId).Some? &&
              r[k].category == FindQuest(catalog, r[k].questId).value.category &&
              r[k].tags == FindQuest(catalog, r[k].questId).value.tags
  {
    if history == [] then []
    else
      var h := history[0];
      var rest := RecentRows(history[1..], catalog, user, now);
      if IsRecentRow(h, catalog, user, now) then
        var q := FindQuest(catalog, h.questId).value;
        [RecentCompletion(h.questId, h.completedAt.value, q.category, q.tags)] + rest
      else rest
  }

  /** The candidates of one selection for a user row. */
  function Candidates(catalog: seq<QuestDefinition>, user: UserRecord, history: seq<HistoryEntry>, userId: string, now: int): seq<QuestDefinition> {
    AvailableQuests(catalog, DecodeTiers(user.unlockedTiers), history, userId, now)
  }

  /** The candidate the roulette wheel stops at for the draw u, the weights being those
      calculateQuestWeights assigns. */
  function Chosen(candidates: seq<QuestDefinition>, recent: seq<RecentCompletion>, stats: UserStats, now: int, u: real): (q: QuestDefinition)
    requires candidates != []
    ensures q in candidates
  {
    candidates[Spin(WeightsOf(WeighAll(candidates, recent, stats, now)), u)]
  }

  /** `recent` is what getRecentQuestHistory delivers: the recent rows, newest first. */
  predicate IsRecentHistory(recent: seq<RecentCompletion>, history: seq<HistoryEntry>, catalog: seq<QuestDefinition>,
                            user: string, now: int) {
    multiset(recent) == multiset(RecentRows(history, catalog, user, now)) && SortedByCompletionDesc(recent)
  }

  class QuestEngine {
    var users: map<string, UserRecord>
    var history: seq<HistoryEntry>
    const catalog: seq<QuestDefinition>

    ghost predicate Valid()
      reads this
    {
      UniqueIds(catalog) && CompletionsStamped(history) && LevelsFollowXp(users)
    }

    constructor(catalog: seq<QuestDefinition>, users: map<string, UserRecord>, history: seq<HistoryEntry>)
      requires UniqueIds(catalog) && CompletionsStamped(history) && LevelsFollowXp(users)
      ensures Valid()
      ensures this.catalog == catalog && this.users == users && this.history == history
    {
      this.catalog := catalog;
      this.users := users;
      this.history := history;
    }

    /** getUserStats: the user's level, tiers (the default when none are stored) and XP,
        or UserNotFound. */
    method GetUserStats(userId: string) returns (r: Result<UserStats>)
      ensures r.Err? <==> userId !in users
      ensures r.Err? ==> r.error == UserNotFound
      ensures r.Ok? ==> r.value == StatsOf(users[userId])
      ensures r.Ok? ==> r.value.currentLevel == users[userId].currentLevel &&
                        r.value.totalXp == users[userId].totalXp &&
                        r.value.unlockedTiers == DecodeTiers(users[userId].unlockedTiers)
    {
      if userId !in users {
        return Err(UserNotFound);
      }
      return Ok(StatsOf(users[userId]));
    }

    /** getAvailableQuests: the active quests of the unlocked categories, in catalog order,
        keeping those whose cooldown has run out. */
    method GetAvailableQuests(userId: string, unlockedTiers: seq<string>, now: int) returns (available: seq<QuestDefinition>)
      ensures available == AvailableQuests(catalog, unlockedTiers, history, userId, now)
      ensures forall q :: q in available <==>
                q in catalog && q.category in unlockedTiers && q.isActive &&
                IsQuestAvailable(history, userId, q.id, q.cooldownHours, now)
    {
      var allQuests := CategoryQuests(catalog, unlockedTiers);
      available := [];
      for i := 0 to |allQuests|
        invariant available == OffCooldown(allQuests[..i], history, userId, now)
      {
        assert allQuests[..i + 1][..i] == allQuests[..i];
        var quest := allQuests[i];
        var isAvailable := IsQuestAvailable(history, userId, quest.id, quest.cooldownHours, now);
        if isAvailable {
          available := available + [quest];
        }
      }
      assert allQuests[..|allQuests|] == allQuests;
      forall q {
        AvailableQuestsMembers(catalog, unlockedTiers, history, userId, now, q);
      }
    }

    /** createQuestInstance: appends an active row for the quest, assigned at `now`. */
    method CreateQuestInstance(userId: string, quest: QuestDefinition, now: int)
      requires Valid()
      modifies this
      ensures Valid()
      ensures history == old(history) + [NewInstance(userId, quest, now)]
      ensures users == old(users)
    {
      var deadline := now + quest.durationDays * DAY_MS;
      history := history + [HistoryEntry(userId, quest.id, Active, now, deadline, None, None, 0)];
    }

    /** checkTierUnlocks: walks the requirement table in order, unlocking every tier not
        yet held whose requirements the user's completion counts meet; the stored list is
        rewritten only when something unlocked. */
    method CheckTierUnlocks(userId: string) returns (r: Result<seq<string>>)
      requires Valid()
      modifies this
      ensures Valid()
      ensures history == old(history)
      ensures userId !in old(users) ==> r == Err(UserNotFound) && users == old(users)
      ensures userId in old(users) ==>
                var user := old(users)[userId];
                var newTiers := NewTiers(TIER_REQUIREMENTS, DecodeTiers(user.unlockedTiers),
                                         CompletionCounts(history, catalog, userId));
                r == Ok(newTiers) &&
                users == old(users)[userId := user.(unlockedTiers := UnlockedAfter(user.unlockedTiers, newTiers))]
    {
      var counts := CompletionCounts(history, catalog, userId);
      if userId !in users {
        return Err(UserNotFound);
      }
      var currentUnlocked := DecodeTiers(users[userId].unlockedTiers);
      ghost var unlocked := currentUnlocked;
      var newlyUnlocked: seq<string> := [];
      TableTiersDistinct();
      for k := 0 to |TIER_REQUIREMENTS|
        invariant newlyUnlocked == NewTiers(TIER_REQUIREMENTS[..k], unlocked, counts)
        invariant currentUnlocked == unlocked + newlyUnlocked
        invariant users == old(users) && history == old(history)
      {
        var rule := TIER_REQUIREMENTS[k];
        assert TIER_REQUIREMENTS[..k + 1][..k] == TIER_REQUIREMENTS[..k];
        NewTiersMembers(TIER_REQUIREMENTS[..k], unlocked, counts, rule.tier);
        assert rule.tier !in newlyUnlocked;
        if rule.tier in currentUnlocked {
          continue;
        }
        if MeetsRequirements(rule.requirements, counts) {
          newlyUnlocked := newlyUnlocked + [rule.tier];
          currentUnlocked := currentUnlocked + [rule.tier];
        }
      }
      assert TIER_REQUIREMENTS[..|TIER_REQUIREMENTS|] == TIER_REQUIREMENTS;
      if |newlyUnlocked| > 0 {
        users := users[userId := users[userId].(unlockedTiers := Some(currentUnlocked))];
      }
      return Ok(newlyUnlocked);
    }

    /** completeQuest, step by step as written: fail when no active row exists, fail when
        the quest is unknown, mark every active row of (user, quest) completed, then fail
        when the user is unknown (the history stays marked), else add the XP, recompute
        the level, touch last_active and check the tiers. */
    method CompleteQuest(userId: string, questId: string, now: int) returns (r: Result<CompletionResult>)
      requires Valid()
      modifies this
      ensures Valid()
      ensures !HasActive(old(history), userId, questId) ==>
                r == Err(NoActiveQuest) && history == old(history) && users == old(users)
      ensures HasActive(old(history), userId, questId) && FindQuest(catalog, questId).None? ==>
                r == Err(QuestDefinitionNotFound) && history == old(history) && users == old(users)
      ensures HasActive(old(history), userId, questId) && FindQuest(catalog, questId).Some? ==>
                history == MarkCompleted(old(history), userId, questId, now, FindQuest(catalog, questId).value.xpReward)
      ensures HasActive(old(history), userId, questId) && FindQuest(catalog, questId).Some? && userId !in old(users) ==>
                r == Err(UserNotFound) && users == old(users)
      ensures HasActive(old(history), userId, questId) && FindQuest(catalog, questId).Some? && userId in old(users) ==>
                var xp := FindQuest(catalog, questId).value.xpReward;
                var user := old(users)[userId];
                var newTotal := user.totalXp + xp;
                var newTiers := NewTiers(TIER_REQUIREMENTS, DecodeTiers(user.unlockedTiers),
                                         CompletionCounts(history, catalog, userId));
                r == Ok(CompletionResult(xp, LevelFor(newTotal) > user.currentLevel, newTiers)) &&
                users == old(users)[userId := UserRecord(newTotal, LevelFor(newTotal),
                                                         UnlockedAfter(user.unlockedTiers, newTiers), now)]
      ensures r.Ok? ==>
                var user := old(users)[userId];
                (r.value.levelUp <==> LevelFor(user.totalXp + r.value.xpGained) > LevelFor(user.totalXp))
    {
      if !HasActive(history, userId, questId) {
        return Err(NoActiveQuest);
      }
      var questDef := FindQuest(catalog, questId);
      if questDef.None? {
        return Err(QuestDefinitionNotFound);
      }
      var xpGained := questDef.value.xpReward;

      history := MarkCompleted(history, userId, questId, now, xpGained);

      if userId !in users {
        return Err(UserNotFound);
      }
      var user := users[userId];
      var newTotalXp := user.totalXp + xpGained;
      var oldLevel := user.currentLevel;
      var newLevel := newTotalXp / 100 + 1;
      var levelUp := newLevel > oldLevel;
      assert newLevel == LevelFor(newTotalXp);
      ghost var before := users;
      var updated := user.(totalXp := newTotalXp, currentLevel := newLevel, lastActive := now);
      users := users[userId := updated];

      ghost var newTiers := NewTiers(TIER_REQUIREMENTS, DecodeTiers(user.unlockedTiers),
                                     CompletionCounts(history, catalog, userId));
      var tierUnlocks := CheckTierUnlocks(userId);
      assert tierUnlocks == Ok(newTiers);
      assert users == before[userId := updated.(unlockedTiers := UnlockedAfter(user.unlockedTiers, newTiers))];
      r := Ok(CompletionResult(xpGained, levelUp, tierUnlocks.value));
    }

    /** generateRandomQuest: the user's stats, the recent history (given as `recent`), the
        candidates, their weights, the roulette draw with Math.random() given as `u`, and
        the new active row for the chosen quest. */
    method GenerateRandomQuest(userId: string, now: int, recent: seq<RecentCompletion>, u: real)
      returns (r: Result<QuestDefinition>)
      requires Valid()
      requires IsRecentHistory(recent, history, catalog, userId, now)
      requires 0.0 <= u < 1.0
      modifies this
      ensures Valid()
      ensures users == old(users)
      ensures userId !in old(users) ==> r == Err(UserNotFound) && history == old(history)
      ensures userId in old(users) && Candidates(catalog, old(users)[userId], old(history), userId, now) == [] ==>
                r == Err(NoQuestsAvailable) && history == old(history)
      ensures userId in old(users) && Candidates(catalog, old(users)[userId], old(history), userId, now) != [] ==>
                r == Ok(Chosen(Candidates(catalog, old(users)[userId], old(history), userId, now),
                               recent, StatsOf(old(users)[userId]), now, u)) &&
                history == old(history) + [NewInstance(userId, r.value, now)]
      ensures r.Ok? ==>
                userId in old(users) &&
                r.value in catalog && r.value.isActive &&
                r.value.category in DecodeTiers(old(users)[userId].unlockedTiers) &&
                IsQuestAvailable(old(history), userId, r.value.id, r.value.cooldownHours, now)
    {
      var userStats := GetUserStats(userId);
      if userStats.Err? {
        return Err(UserNotFound);
      }
      var stats := userStats.value;
      assert stats == StatsOf(users[userId]);
      var availableQuests := GetAvailableQuests(userId, stats.unlockedTiers, now);
      ghost var candidates := Candidates(catalog, old(users)[userId], old(history), userId, now);
      assert availableQuests == candidates;
      if |availableQuests| == 0 {
        return Err(NoQuestsAvailable);
      }
      var weightedQuests := CalculateQuestWeights(availableQuests, recent, stats, now);
      var selectedQuest := SelectWeightedRandom(weightedQuests, u);
      assert weightedQuests == WeighAll(candidates, recent, StatsOf(old(users)[userId]), now);
      CreateQuestInstance(userId, selectedQuest, now);
      r := Ok(selectedQuest);
    }
  }

  /** Checking the tiers again with unchanged counts unlocks nothing: the stored list
      after one check already holds every tier the counts earn. */
  lemma RecheckUnlocksNothing(stored: Option<seq<string>>, counts: map<string, nat>)
    ensures var newTiers := NewTiers(TIER_REQUIREMENTS, DecodeTiers(stored), counts);
            NewTiers(TIER_REQUIREMENTS, DecodeTiers(UnlockedAfter(stored, newTiers)), counts) == []
  {
    var newTiers := NewTiers(TIER_REQUIREMENTS, DecodeTiers(stored), counts);
    NewTiersIdempotent(TIER_REQUIREMENTS, DecodeTiers(stored), counts);
    if newTiers == [] {
      assert DecodeTiers(stored) + newTiers == DecodeTiers(stored);
    }
  }

  /** Every candidate weight is at least 0.1, so the draw u * total lands on a candidate
      and the fallback of selectWeightedRandom is never taken. */
  lemma GenerationNeverFallsBack(weights: seq<real>, candidates: seq<QuestDefinition>, recent: seq<RecentCompletion>,
                                 stats: UserStats, now: int, u: real)
    requires candidates != []
    requires 0.0 <= u < 1.0
    requires weights == WeightsOf(WeighAll(candidates, recent, stats, now))
    ensures FirstReaching(weights, u * Total(weights), 0) < |weights|
  {
    assert forall i :: 0 <= i < |weights| ==> weights[i] >= 0.0;
    SelectIndexReachesDraw(weights, u);
  }
}
