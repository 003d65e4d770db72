/** The anti-gaming weight calculator (calculateQuestWeights) and its inputs. */
module Weights {
  import opened QuestTypes

  /** The reasons the weighting records, one per adjusting step. */
  const NEW_CATEGORY_BONUS: string := "New category bonus"
  const CATEGORY_SATURATION_PENALTY: string := "Category saturation penalty"
  const PERFECT_DIFFICULTY_MATCH: string := "Perfect difficulty match"
  const GOOD_DIFFICULTY_RANGE: string := "Good difficulty range"
  const RECENT_COMPLETION_PENALTY: string := "Recent completion penalty"
  const MILD_RECENCY_PENALTY: string := "Mild recency penalty"
  const MULTI_STEP_BONUS: string := "Multi-step engagement bonus"

  /** One multiplicative step of the weighting and the reason it records, if any. */
  datatype Adjustment = Adjustment(factor: real, reason: Option<string>)

  function RealMax(a: real, b: real): real {
    if a >= b then a else b
  }

  function Abs(x: int): nat {
    if x < 0 then -x else x
  }

  /** Number of recent completions whose tags include `tag`. */
  function CountTagged(tag: string, recent: seq<RecentCompletion>): (n: nat)
    ensures n <= |recent|
  {
    if recent == [] then 0
    else CountTagged(tag, recent[1..]) + (if tag in recent[0].tags then 1 else 0)
  }

  /** How often the quest's primary tag (its first) occurs in the recent completions.
      A quest without tags has no primary tag, and nothing matches it. */
  function CategoryCount(tags: seq<string>, recent: seq<RecentCompletion>): nat {
    if tags == [] then 0 else CountTagged(tags[0], recent)
  }

  /** The first recent completion of `questId` (history.find). */
  function FindCompletion(questId: string, history: seq<RecentCompletion>): (r: Option<RecentCompletion>)
    ensures r.None? <==> forall h :: h in history ==> h.questId != questId
    ensures r.Some? ==> exists k :: 0 <= k < |history| && history[k] == r.value && r.value.questId == questId &&
                                   forall j :: 0 <= j < k ==> history[j].questId != questId
  {
    if history == [] then None
    else if history[0].questId == questId then Some(history[0])
    else
      var r := FindCompletion(questId, history[1..]);
      assert forall j :: 1 <= j < |history| ==> history[j] == history[1..][j - 1];
      r
  }

  /** getDaysSinceLastCompletion: whole days since the first matching completion, 999 if none.
      Dafny's division by a positive divisor rounds down, as Math.floor does. */
  function DaysSinceLastCompletion(questId: string, history: seq<RecentCompletion>, now: int): int {
    match FindCompletion(questId, history)
    case None => 999
    case Some(h) => (now - h.completedAt) / DAY_MS
  }

  /** Step 1, category variety. */
  function CategoryAdjustment(count: nat): (a: Adjustment)
    ensures a.factor > 0.0
    ensures count == 0 ==> a.factor > 1.0
    ensures count >= 2 ==> a.factor < 1.0
    ensures a.factor == 1.0 <==> count == 1
    ensures a.factor != 1.0 <==> a.reason.Some?
  {
    if count == 0 then Adjustment(1.5, Some(NEW_CATEGORY_BONUS))
    else if count >= 2 then Adjustment(0.6, Some(CATEGORY_SATURATION_PENALTY))
    else Adjustment(1.0, None)
  }

  /** The difficulty that suits a level: floor(level / 10), a level of 0 read as 1. */
  function OptimalDifficulty(currentLevel: int): int {
    var userLevel := if currentLevel == 0 then 1 else currentLevel;
    userLevel / 10
  }

  /** Step 2, difficulty progression. */
  function DifficultyAdjustment(difficulty: int, currentLevel: int): (a: Adjustment)
    ensures a.factor >= 1.0
    ensures Abs(difficulty - OptimalDifficulty(currentLevel)) <= 1 ==> a.factor > 1.0
    ensures a.factor == 1.0 <==> Abs(difficulty - OptimalDifficulty(currentLevel)) > 1
    ensures a.factor != 1.0 <==> a.reason.Some?
  {
    var optimal := OptimalDifficulty(currentLevel);
    if difficulty == optimal then Adjustment(1.3, Some(PERFECT_DIFFICULTY_MATCH))
    else if Abs(difficulty - optimal) == 1 then Adjustment(1.1, Some(GOOD_DIFFICULTY_RANGE))
    else Adjustment(1.0, None)
  }

  /** Step 3, recency penalty. */
  function RecencyAdjustment(days: int): (a: Adjustment)
    ensures 0.0 < a.factor <= 1.0
    ensures days < 4 ==> a.factor < 1.0
    ensures a.factor == 1.0 <==> days >= 4
    ensures a.factor != 1.0 <==> a.reason.Some?
  {
    if days < 2 then Adjustment(0.5, Some(RECENT_COMPLETION_PENALTY))
    else if days < 4 then Adjustment(0.8, Some(MILD_RECENCY_PENALTY))
    else Adjustment(1.0, None)
  }

  /** Step 4, XP value: 1 + (xp - 15) / 100, never below 0.8; it records no reason. */
  function XpFactor(xpReward: int): (f: real)
    ensures f >= 0.8
    ensures f >= 1.0 + (xpReward - 15) as real / 100.0
    ensures f == 0.8 || f == 1.0 + (xpReward - 15) as real / 100.0
  {
    RealMax(1.0 + (xpReward - 15) as real / 100.0, 0.8)
  }

  /** Step 5, multi-step bonus. */
  function MultiStepAdjustment(isMultiStep: bool): (a: Adjustment)
    ensures a.factor >= 1.0
    ensures isMultiStep ==> a.factor > 1.0
    ensures a.factor == 1.0 <==> !isMultiStep
    ensures a.factor != 1.0 <==> a.reason.Some?
  {
    if isMultiStep then Adjustment(1.1, Some(MULTI_STEP_BONUS)) else Adjustment(1.0, None)
  }

  /** Applying one factor to the running weight. */
  function Scale(weight: real, factor: real): real {
    weight * factor
  }

  /** Recording the reason of one step, if it has one. */
  function Record(reasons: seq<string>, a: Adjustment): seq<string> {
    match a.reason
    case None => reasons
    case Some(s) => reasons + [s]
  }

  /** The weighted candidate for one quest: the product of the five factors,
      floored at 0.1, with the reasons of steps 1, 2, 3 and 5 in that order. */
  function QuestWeight(quest: QuestDefinition, recent: seq<RecentCompletion>, stats: UserStats, now: int): (wq: WeightedQuest)
    ensures wq.quest == quest
    ensures wq.weight >= 0.1 && wq.weight > 0.0
  {
    var c := CategoryAdjustment(CategoryCount(quest.tags, recent));
    var d := DifficultyAdjustment(quest.difficulty, stats.currentLevel);
    var r := RecencyAdjustment(DaysSinceLastCompletion(quest.id, recent, now));
    var m := MultiStepAdjustment(quest.isMultiStep);
    WeightedQuest(quest,
                  RealMax(Scale(Scale(Scale(Scale(c.factor, d.factor), r.factor), XpFactor(quest.xpReward)), m.factor), 0.1),
                  Record(Record(Record(Record([], c), d), r), m))
  }

  /** The weighting of one quest, step by step, as the body of the map in calculateQuestWeights does it. */
  method WeighQuest(quest: QuestDefinition, recentHistory: seq<RecentCompletion>, userStats: UserStats, now: int)
    returns (wq: WeightedQuest)
    ensures wq == QuestWeight(quest, recentHistory, userStats, now)
  {
    var weight := 1.0;
    var reasons: seq<string> := [];
    ghost var c := CategoryAdjustment(CategoryCount(quest.tags, recentHistory));
    ghost var d := DifficultyAdjustment(quest.difficulty, userStats.currentLevel);
    ghost var r := RecencyAdjustment(DaysSinceLastCompletion(quest.id, recentHistory, now));
    ghost var m := MultiStepAdjustment(quest.isMultiStep);

    var categoryCount := CategoryCount(quest.tags, recentHistory);
    if categoryCount == 0 {
      weight := weight * 1.5;
      reasons := reasons + [NEW_CATEGORY_BONUS];
    } else if categoryCount >= 2 {
      weight := weight * 0.6;
      reasons := reasons + [CATEGORY_SATURATION_PENALTY];
    }
    assert weight == c.factor && reasons == Record([], c);

    var userLevel := if userStats.currentLevel == 0 then 1 else userStats.currentLevel;
    var optimalDifficulty := userLevel / 10;
    if quest.difficulty == optimalDifficulty {
      weight := weight * 1.3;
      reasons := reasons + [PERFECT_DIFFICULTY_MATCH];
    } else if Abs(quest.difficulty - optimalDifficulty) == 1 {
      weight := weight * 1.1;
      reasons := reasons + [GOOD_DIFFICULTY_RANGE];
    }
    assert weight == Scale(c.factor, d.factor) && reasons == Record(Record([], c), d);

    var daysSinceLastCompletion := DaysSinceLastCompletion(quest.id, recentHistory, now);
    if daysSinceLastCompletion < 2 {
      weight := weight * 0.5;
      reasons := reasons + [RECENT_COMPLETION_PENALTY];
    } else if daysSinceLastCompletion < 4 {
      weight := weight * 0.8;
      reasons := reasons + [MILD_RECENCY_PENALTY];
    }
    assert weight == Scale(Scale(c.factor, d.factor), r.factor) && reasons == Record(Record(Record([], c), d), r);

    var xpMultiplier := 1.0 + (quest.xpReward - 15) as real / 100.0;
    var xpFactor := RealMax(xpMultiplier, 0.8);
    assert xpFactor == XpFactor(quest.xpReward);
    // Through Scale, unlike the constant steps: a product of two unknown reals is
    // nonlinear, and naming it keeps the proof of this method within reach of the solver.
    weight := Scale(weight, xpFactor);

    if quest.isMultiStep {
      weight := weight * 1.1;
      reasons := reasons + [MULTI_STEP_BONUS];
    }
    assert weight == Scale(Scale(Scale(Scale(c.factor, d.factor), r.factor), XpFactor(quest.xpReward)), m.factor) && reasons == Record(Record(Record(Record([], c), d), r), m);

    wq := WeightedQuest(quest, RealMax(weight, 0.1), reasons);
  }

  /** The weighting of a whole candidate list. */
  function WeighAll(quests: seq<QuestDefinition>, recent: seq<RecentCompletion>, stats: UserStats, now: int): (ws: seq<WeightedQuest>)
    ensures |ws| == |quests|
    ensures forall i :: 0 <= i < |quests| ==> ws[i] == QuestWeight(quests[i], recent, stats, now)
    ensures forall i :: 0 <= i < |quests| ==> ws[i].quest == quests[i] && ws[i].weight >= 0.1
  {
    seq(|quests|, i requires 0 <= i < |quests| => QuestWeight(quests[i], recent, stats, now))
  }

  /** calculateQuestWeights: one candidate per quest, in the same order, each carrying
      its quest and a weight of at least 0.1. */
  method CalculateQuestWeights(quests: seq<QuestDefinition>, recentHistory: seq<RecentCompletion>, userStats: UserStats, now: int)
    returns (weighted: seq<WeightedQuest>)
    ensures weighted == WeighAll(quests, recentHistory, userStats, now)
    ensures |weighted| == |quests|
    ensures forall i :: 0 <= i < |quests| ==> weighted[i].quest == quests[i] && weighted[i].weight >= 0.1
  {
    weighted := [];
    for i := 0 to |quests|
      invariant |weighted| == i
      invariant forall k :: 0 <= k < i ==> weighted[k] == QuestWeight(quests[k], recentHistory, userStats, now)
    {
      var wq := WeighQuest(quests[i], recentHistory, userStats, now);
      weighted := weighted + [wq];
    }
  }

  lemma RecordMembers(reasons: seq<string>, a: Adjustment, x: string)
    ensures x in Record(reasons, a) <==> x in reasons || a.reason == Some(x)
  {
  }

  /** A string is among the reasons exactly when one of the four recording steps produced it. */
  lemma ReasonsFromSteps(quest: QuestDefinition, recent: seq<RecentCompletion>, stats: UserStats, now: int, x: string)
    ensures var c := CategoryAdjustment(CategoryCount(quest.tags, recent));
            var d := DifficultyAdjustment(quest.difficulty, stats.currentLevel);
            var r := RecencyAdjustment(DaysSinceLastCompletion(quest.id, recent, now));
            var m := MultiStepAdjustment(quest.isMultiStep);
            x in QuestWeight(quest, recent, stats, now).reasons <==>
              c.reason == Some(x) || d.reason == Some(x) || r.reason == Some(x) || m.reason == Some(x)
  {
    var c := CategoryAdjustment(CategoryCount(quest.tags, recent));
    var d := DifficultyAdjustment(quest.difficulty, stats.currentLevel);
    var r := RecencyAdjustment(DaysSinceLastCompletion(quest.id, recent, now));
    var m := MultiStepAdjustment(quest.isMultiStep);
    RecordMembers([], c, x);
    RecordMembers(Record([], c), d, x);
    RecordMembers(Record(Record([], c), d), r, x);
    RecordMembers(Record(Record(Record([], c), d), r), m, x);
  }

  /** Step 1 records its bonus exactly for an unseen primary tag and its penalty exactly
      for one seen at least twice. */
  lemma CategoryReasonRecorded(quest: QuestDefinition, recent: seq<RecentCompletion>, stats: UserStats, now: int)
    ensures var reasons := QuestWeight(quest, recent, stats, now).reasons;
            var count := CategoryCount(quest.tags, recent);
            && (NEW_CATEGORY_BONUS in reasons <==> count == 0)
            && (CATEGORY_SATURATION_PENALTY in reasons <==> count >= 2)
  {
    ReasonsFromSteps(quest, recent, stats, now, NEW_CATEGORY_BONUS);
    ReasonsFromSteps(quest, recent, stats, now, CATEGORY_SATURATION_PENALTY);
  }

  /** Step 2 records a match exactly at the optimal difficulty and a near miss exactly one away. */
  lemma DifficultyReasonRecorded(quest: QuestDefinition, recent: seq<RecentCompletion>, stats: UserStats, now: int)
    ensures var reasons := QuestWeight(quest, recent, stats, now).reasons;
            var optimal := OptimalDifficulty(stats.currentLevel);
            && (PERFECT_DIFFICULTY_MATCH in reasons <==> quest.difficulty == optimal)
            && (GOOD_DIFFICULTY_RANGE in reasons <==> Abs(quest.difficulty - optimal) == 1)
  {
    ReasonsFromSteps(quest, recent, stats, now, PERFECT_DIFFICULTY_MATCH);
    ReasonsFromSteps(quest, recent, stats, now, GOOD_DIFFICULTY_RANGE);
  }

  /** Step 3 records the strong penalty under 2 days and the mild one from 2 to under 4 days. */
  lemma RecencyReasonRecorded(quest: QuestDefinition, recent: seq<RecentCompletion>, stats: UserStats, now: int)
    ensures var reasons := QuestWeight(quest, recent, stats, now).reasons;
            var days := DaysSinceLastCompletion(quest.id, recent, now);
            && (RECENT_COMPLETION_PENALTY in reasons <==> days < 2)
            && (MILD_RECENCY_PENALTY in reasons <==> 2 <= days < 4)
  {
    ReasonsFromSteps(quest, recent, stats, now, RECENT_COMPLETION_PENALTY);
    ReasonsFromSteps(quest, recent, stats, now, MILD_RECENCY_PENALTY);
  }

  /** Step 5 records its bonus exactly for multi-step quests; the XP step (4) never records
      anything, so there are at most four reasons. */
  lemma MultiStepReasonRecorded(quest: QuestDefinition, recent: seq<RecentCompletion>, stats: UserStats, now: int)
    ensures var reasons := QuestWeight(quest, recent, stats, now).reasons;
            && (MULTI_STEP_BONUS in reasons <==> quest.isMultiStep)
            && |reasons| <= 4
  {
    ReasonsFromSteps(quest, recent, stats, now, MULTI_STEP_BONUS);
  }

  /** A higher XP reward never lowers the XP factor (a mild boost, not a crush). */
  lemma XpFactorMonotone(x: int, y: int)
    requires x <= y
    ensures XpFactor(x) <= XpFactor(y)
  {
  }

  lemma DaysMonotone(a: int, b: int)
    requires a <= b
    ensures a / DAY_MS <= b / DAY_MS
  {
  }

  predicate SortedByCompletionDesc(history: seq<RecentCompletion>) {
    forall i, j :: 0 <= i < j < |history| ==> history[i].completedAt >= history[j].completedAt
  }

  /** With the history newest first, as the query delivers it, the days counted are those
      since the latest completion of the quest: 999 when there is none, and otherwise
      the fewest days over all its completions. */
  lemma DaysSinceUsesLatest(questId: string, history: seq<RecentCompletion>, now: int)
    requires SortedByCompletionDesc(history)
    ensures (forall h :: h in history ==> h.questId != questId) ==> DaysSinceLastCompletion(questId, history, now) == 999
    ensures forall h :: h in history && h.questId == questId ==>
              DaysSinceLastCompletion(questId, history, now) <= (now - h.completedAt) / DAY_MS
    ensures (exists h :: h in history && h.questId == questId) ==>
              exists h :: h in history && h.questId == questId &&
                          DaysSinceLastCompletion(questId, history, now) == (now - h.completedAt) / DAY_MS
  {
    var found := FindCompletion(questId, history);
    if found.Some? {
      var k :| 0 <= k < |history| && history[k] == found.value && found.value.questId == questId &&
               forall j :: 0 <= j < k ==> history[j].questId != questId;
      forall h | h in history && h.questId == questId
        ensures (now - found.value.completedAt) / DAY_MS <= (now - h.completedAt) / DAY_MS
      {
        var j :| 0 <= j < |history| && history[j] == h;
        assert k <= j;
        DaysMonotone(now - found.value.completedAt, now - h.completedAt);
      }
    }
  }
}
