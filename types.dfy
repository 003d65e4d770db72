/** Entities of the quest engine: catalog entries, user rows, history rows,
    the in-memory shapes the engine computes with, and its failure kinds. */
module QuestTypes {

  datatype Option<+T> = None | Some(value: T)

  /** The four failures the engine reports to its caller, one per message it throws. */
  datatype EngineError =
    | UserNotFound             // 'User not found'
    | QuestDefinitionNotFound  // 'Quest definition not found'
    | NoQuestsAvailable        // 'No quests available - all on cooldown'
    | NoActiveQuest            // 'No active quest found'

  datatype Result<+T> = Ok(value: T) | Err(error: EngineError)

  /** Timestamps are integers counting milliseconds, like Date.getTime(). */
  const HOUR_MS: int := 60 * 60 * 1000
  const DAY_MS: int := 24 * HOUR_MS

  /** The tier every user starts with when the stored list is missing. */
  const BASE_TIER: string := "physiological"

  /** A row of quest_definitions: read-only to the engine. */
  datatype QuestDefinition = QuestDefinition(
    id: string,
    title: string,
    description: string,
    category: string,
    difficulty: int,
    xpReward: int,
    cooldownHours: int,
    durationDays: int,
    isMultiStep: bool,
    totalSteps: int,
    tags: seq<string>,
    iconPath: string,
    isActive: bool)

  /** A row of users. `unlockedTiers` is the decoded JSON column; None stands for
      the empty column, which every reader replaces by [BASE_TIER]. */
  datatype UserRecord = UserRecord(
    totalXp: int,
    currentLevel: int,
    unlockedTiers: Option<seq<string>>,
    lastActive: int)

  datatype QuestState = Active | Completed

  /** A row of user_quest_history. */
  datatype HistoryEntry = HistoryEntry(
    userId: string,
    questId: string,
    state: QuestState,
    assignedAt: int,
    deadline: int,
    completedAt: Option<int>,
    xpEarned: Option<int>,
    currentProgress: int)

  /** The per-user figures the weighting uses (UserStats). */
  datatype UserStats = UserStats(currentLevel: int, unlockedTiers: seq<string>, totalXp: int)

  /** A recent completion joined with its quest's category and tags (QuestHistory). */
  datatype RecentCompletion = RecentCompletion(questId: string, completedAt: int, category: string, tags: seq<string>)

  /** A candidate with its weight and the reasons that shaped it (WeightedQuest). */
  datatype WeightedQuest = WeightedQuest(quest: QuestDefinition, weight: real, reasons: seq<string>)

  /** What completeQuest returns. */
  datatype CompletionResult = CompletionResult(xpGained: int, levelUp: bool, tierUnlocks: seq<string>)

  /** The tier list a reader sees: the stored list, or [BASE_TIER] when the column is empty. */
  function DecodeTiers(stored: Option<seq<string>>): seq<string> {
    match stored
    case None => [BASE_TIER]
    case Some(t) => t
  }

  /** The first catalog row with the given id (SELECT ... WHERE id = ? ... first()). */
  function FindQuest(catalog: seq<QuestDefinition>, id: string): (r: Option<QuestDefinition>)
    ensures r.Some? ==> r.value in catalog && r.value.id == id
    ensures r.None? <==> forall q :: q in catalog ==> q.id != id
  {
    if catalog == [] then None
    else if catalog[0].id == id then Some(catalog[0])
    else FindQuest(catalog[1..], id)
  }
}
