# LifeQuest quest engine — a Dafny model

This project models the quest engine of LifeQuest (`QuestEngine` in
`api/src/engine/quest-engine.ts`). The engine hands a user short real-world
"quests" and rewards them:

- **Selection.** It keeps the quests of the user's unlocked tiers that are
  active and off cooldown, weighs each one, draws one by roulette wheel, and
  records it as an active assignment.
- **Completion.** It marks the assignment completed, credits the quest's XP,
  recomputes the level (100 XP per level), and unlocks the next tiers of the
  needs hierarchy once enough quests of the lower tiers are completed.

The engine's database has three tables. `QuestEngine` holds them as fields:

- `catalog` holds the quest definitions. The engine only reads them.
- `users` maps a user id to its row.
- `history` holds the rows of user_quest_history.

Each method of the class follows the steps of the TypeScript method it models, in
the same order and with the same failure cases. A failure is `Err(...)` of a
`Result`, one error kind per message the source throws. Pure logic lives in
functions, in modules named after the part of the engine they model:

- `Availability` covers the cooldown test and the candidate filter.
- `Weights` covers the anti-gaming weighting.
- `Selection` covers the roulette wheel.
- `Completion` covers XP, level and the history update.
- `Tiers` covers the unlock rules.

Lemmas about these functions state what the engine promises.

Timestamps are integers counting milliseconds. Dafny's integer division by a
positive divisor rounds down, as `Math.floor` does, so the level and day counts
are exact. Weights are real numbers.

Three behaviours of the code are easy to miss, and the model keeps each of them:

- **completeQuest is not atomic.** It marks the history rows completed before it
  looks up the user. When the user is missing, the method fails with
  `UserNotFound`, but the history stays changed and no XP is credited.
  `Engine.QuestEngine.CompleteQuest` states this outcome.
- **All active rows are marked.** The UPDATE of completeQuest marks every active
  row of (user, quest), not only the most recent one.
- **Duplicate assignments are allowed.** createQuestInstance does not refuse to
  assign a quest that is already active for the user.

## Model

| member | source | states |
|---|---|---|
| `QuestTypes.FindQuest` | api/src/engine/quest-engine.ts:89-95 | the definition lookup finds a catalog quest with the given id, and finds none exactly when no quest has it |
| `Availability.LastCompletedAt` | api/src/engine/quest-engine.ts:169-175 | the latest completion time of (user, quest): absent exactly when there is no completed row, otherwise the time of one completed row and no earlier than any of them |
| `Availability.AvailableIffEveryCooldownElapsed` | api/src/engine/quest-engine.ts:168-181 | a quest is available exactly when, for every completion of it by the user, completion time plus cooldown hours is at or before now |
| `Availability.NeverCompletedIsAvailable` | api/src/engine/quest-engine.ts:175 | a quest the user never completed is available, whatever its cooldown |
| `Availability.CooldownBoundary` | api/src/engine/quest-engine.ts:177-180 | after the latest completion at t, the quest is available at exactly t + cooldown, and not one second before |
| `Availability.AvailabilityPersists` | api/src/engine/quest-engine.ts:177-180 | while the history does not change, once a quest is available it stays available at every later time |
| `Availability.CategoryQuests` | api/src/engine/quest-engine.ts:143-147 | the category query returns exactly the catalog quests that are active and whose category is unlocked |
| `Availability.OffCooldownMembers` | api/src/engine/quest-engine.ts:150-162 | the cooldown loop keeps exactly the quests that are available, and drops nothing else |
| `Availability.AvailableQuestsMembers` | api/src/engine/quest-engine.ts:140-163 | a quest is a candidate exactly when it is in the catalog, active, of an unlocked category and off cooldown |
| `Engine.QuestEngine.GetAvailableQuests` | api/src/engine/quest-engine.ts:140-163 | the loop returns the off-cooldown quests of the category query, in catalog order (the order the model gives the unordered category query), and so exactly the candidates characterised above |
| `Engine.QuestEngine.GetUserStats` | api/src/engine/quest-engine.ts:291-305 | fails with UserNotFound exactly when the user row is missing; otherwise returns the statistics of that row: its level, its XP and its tiers, with the base tier when none are stored |
| `Weights.FindCompletion` | api/src/engine/quest-engine.ts:281 | the search finds the first recent completion of the quest, and finds none exactly when the quest does not occur |
| `Weights.DaysSinceUsesLatest` | api/src/engine/quest-engine.ts:280-286 | with the history newest first, the day count is 999 when the quest never occurs, and otherwise the whole days since its latest completion, the smallest over all its completions |
| `Weights.CategoryAdjustment` | api/src/engine/quest-engine.ts:191-203 | the variety factor is a boost (above 1) for a category never completed, a penalty (below 1) for one completed twice or more, it is neutral (exactly 1) exactly for a count of one, and it records a reason exactly when it is not neutral |
| `Weights.DifficultyAdjustment` | api/src/engine/quest-engine.ts:205-215 | the difficulty factor never lowers a weight, it is a boost (above 1) when the difficulty is within one of the optimal difficulty and neutral (exactly 1) exactly when it is further away, and it records a reason exactly when it is not neutral |
| `Weights.RecencyAdjustment` | api/src/engine/quest-engine.ts:217-225 | the recency factor is positive and never raises a weight, it is a penalty (below 1) when the quest was completed less than four days ago and neutral (exactly 1) exactly from four days on, and it records a reason exactly when it is not neutral |
| `Weights.XpFactor` | api/src/engine/quest-engine.ts:227-229 | the XP factor is exactly the larger of 1 + (xp - 15) / 100 and 0.8 |
| `Weights.MultiStepAdjustment` | api/src/engine/quest-engine.ts:231-235 | the multi-step factor never lowers a weight, it is a boost (above 1) for a multi-step quest and neutral (exactly 1) exactly for a single-step one, and it records a reason exactly when it is not neutral |
| `Weights.QuestWeight` | api/src/engine/quest-engine.ts:237-241 | a weighted candidate carries its own quest and a weight of at least 0.1, so every candidate keeps a chance |
| `Weights.WeighQuest` | api/src/engine/quest-engine.ts:187-241 | the step-by-step weighting of one quest, with its running weight and reasons list, yields the weight and reasons defined by the five factors |
| `Weights.WeighAll` | api/src/engine/quest-engine.ts:186-243 | the weighting of a list has one entry per quest, in order, each with its quest and a weight of at least 0.1 |
| `Weights.CalculateQuestWeights` | api/src/engine/quest-engine.ts:186-243 | the map over the quests returns the weighting of the list: same length and order, each entry with its quest and a weight of at least 0.1 |
| `Weights.ReasonsFromSteps` | api/src/engine/quest-engine.ts:188-241 | a string is among the reasons exactly when one of the four reason-recording steps produced it |
| `Weights.CategoryReasonRecorded` | api/src/engine/quest-engine.ts:192-203 | the new-category bonus is recorded exactly when the primary tag has no recent completion, and the saturation penalty exactly when it has two or more |
| `Weights.DifficultyReasonRecorded` | api/src/engine/quest-engine.ts:206-215 | the perfect-match reason is recorded exactly at difficulty floor(level / 10), with level 0 read as 1, and the good-range reason exactly one away from it |
| `Weights.RecencyReasonRecorded` | api/src/engine/quest-engine.ts:218-225 | the recent-completion penalty is recorded exactly under 2 days, and the mild penalty exactly from 2 to under 4 days |
| `Weights.MultiStepReasonRecorded` | api/src/engine/quest-engine.ts:227-235 | the multi-step bonus is recorded exactly for multi-step quests; the XP step records nothing, so there are at most four reasons |
| `Weights.XpFactorMonotone` | api/src/engine/quest-engine.ts:228-229 | a higher XP reward never lowers the XP factor |
| `Selection.SelectWeightedRandom` | api/src/engine/quest-engine.ts:248-261 | the walk that subtracts each weight from u times the total returns the quest at the wheel's stopping index: the first index whose prefix sum reaches the draw, or index 0 when none does |
| `Selection.FirstReachingIsFirst` | api/src/engine/quest-engine.ts:252-258 | when the total reaches the draw, the walk stops before the end, at an index whose prefix sum reaches the draw, and no earlier prefix sum does |
| `Selection.SelectIndexReachesDraw` | api/src/engine/quest-engine.ts:249-260 | with weights that are not negative and u in [0, 1), the draw never falls through to the fallback |
| `Selection.SelectionInterval` | api/src/engine/quest-engine.ts:248-258 | with positive weights, a draw in (0, total] selects index i exactly when it lies in the interval (w[0]+...+w[i-1], w[0]+...+w[i]], whose length is w[i] |
| `Engine.GenerationNeverFallsBack` | api/src/engine/quest-engine.ts:237-260 | because every candidate weight is at least 0.1, the draw of a selection always lands on a candidate and the fallback is never taken |
| `Engine.Chosen` | api/src/engine/quest-engine.ts:61-65 | the quest the wheel picks from the weighted candidates is one of the candidates |
| `Engine.RecentRows` | api/src/engine/quest-engine.ts:310-328 | each row of the recent-history query was completed after the cutoff 7 days before now, and carries its quest's category and tags from the join |
| `Engine.QuestEngine.CreateQuestInstance` | api/src/engine/quest-engine.ts:266-275 | appends one active row for (user, quest), assigned now, due duration_days days later, with no progress; the users table is unchanged |
| `Engine.QuestEngine.GenerateRandomQuest` | api/src/engine/quest-engine.ts:49-71 | fails with UserNotFound or NoQuestsAvailable, changing nothing; otherwise returns the quest the wheel picks among the weighted candidates, a catalog quest that is active, of an unlocked tier and off cooldown, and records it as active |
| `Completion.LevelFor` | api/src/engine/quest-engine.ts:115-117 | the level for a total XP is the one whose 100-XP band contains it, and at least 1 for a total that is not negative |
| `Completion.MarkCompleted` | api/src/engine/quest-engine.ts:100-104 | every active row of (user, quest) becomes completed now with the quest's XP, with its assignment, deadline and progress kept; every other row is unchanged; no active row of (user, quest) remains |
| `Completion.LevelNeverDrops` | api/src/engine/quest-engine.ts:115-118 | a reward that is not negative never lowers the level |
| `Completion.LevelUpIffThresholdReached` | api/src/engine/quest-engine.ts:115-118 | the level-up flag, which compares the level of the new total with the stored level, is set exactly when the new total reaches 100 times the stored level, for any stored level |
| `Completion.FirstCompletionExample` | api/src/engine/quest-engine.ts:115-118 | 0 XP plus a 150-XP quest is level 2, a level up from level 1 |
| `Completion.MarkCompletedKeepsOtherCooldowns` | api/src/engine/quest-engine.ts:100-104 | marking (user, quest) completed leaves the latest completion of every other (user, quest) pair unchanged |
| `Completion.CompletionStartsCooldown` | api/src/engine/quest-engine.ts:100-104 | after a completion at now, the quest is unavailable until now + cooldown; when no completion lies later than now, it is available exactly from then on |
| `Engine.QuestEngine.CompleteQuest` | api/src/engine/quest-engine.ts:76-135 | NoActiveQuest and QuestDefinitionNotFound change nothing; otherwise every active row is marked completed; then UserNotFound leaves the user rows unchanged; otherwise XP, level, last_active and tiers are updated, and the XP gained, the level-up flag and the new tiers are returned; the flag is set exactly when the level of the new total exceeds that of the old total, and every stored level stays the one its stored total stands for |
| `Engine.UnlockedAfter` | api/src/engine/quest-engine.ts:381-386 | the tier list a reader sees (the default included) grows by exactly the new tiers, and the stored column changes if and only if something unlocked |
| `Engine.QuestEngine.CheckTierUnlocks` | api/src/engine/quest-engine.ts:334-389 | fails with UserNotFound, changing nothing; otherwise returns the table's tiers, in table order, that are not yet unlocked and whose requirements the completion counts meet, and stores them only when there are any; the history is unchanged, and so is every stored level and total |
| `Engine.RecheckUnlocksNothing` | api/src/engine/quest-engine.ts:365-386 | checking the tiers again with the same counts unlocks nothing more |
| `Tiers.CompletedIn` | api/src/engine/quest-engine.ts:336-342 | a category's completion count is positive exactly when some completed row of the user has a quest of that category |
| `Tiers.CountOr0IsCompletedIn` | api/src/engine/quest-engine.ts:344-347 | looking up a category in the grouped counts, with 0 for a missing category, gives that category's number of completed rows |
| `Tiers.NewTiersMembers` | api/src/engine/quest-engine.ts:368-379 | a tier is newly unlocked exactly when it is in the table, not yet unlocked, and meets every requirement of its rule |
| `Tiers.NewTiersInTableOrder` | api/src/engine/quest-engine.ts:368-379 | the newly unlocked tiers are a subsequence of the table's tiers, in table order |
| `Tiers.NewTiersIdempotent` | api/src/engine/quest-engine.ts:368-379 | once the new tiers are added to the unlocked list, the same counts unlock nothing more |
| `Tiers.TableTiersDistinct` | api/src/engine/quest-engine.ts:350-357 | the requirement table names each tier once |
| `Tiers.TenBaseCompletionsExample` | api/src/engine/quest-engine.ts:350-379 | with only "physiological" unlocked and ten physiological completions, exactly "safety" unlocks |

## Left out

- The database itself is not modelled: no SQL text, no D1 bindings, and no
  `.first()`/`.all()` result objects. Each query is the function of the tables
  that its WHERE, JOIN and GROUP BY describe. The active row that completeQuest
  fetches with `ORDER BY assigned_at DESC LIMIT 1` is only tested for existence,
  as in the source, so its ordering is not modelled.
- JSON is not modelled: the tags and unlocked_tiers columns are already-decoded
  lists, and a column that fails to parse is not modelled. An empty unlocked_tiers
  column is `None`, which every reader replaces by the base tier.
- Calendar arithmetic is not modelled. `setHours` and `setDate` work in local time,
  where a DST change can make a day other than 24 hours; the model adds fixed
  millisecond amounts. ISO timestamp strings are integers, and comparing them as
  text is comparing them as times.
- Each operation reads the clock as one `now` parameter. The source calls
  `new Date()` and `Date.now()` several times.
- Weights are exact real numbers, not IEEE doubles. Because the model has no
  rounding, the fallback of selectWeightedRandom is unreachable in it. In the
  source, the fallback exists for rounding leftovers.
- `Math.random()` is the parameter `u` in [0, 1). `console.log` is left out.
- Async execution, concurrent requests and transactions are left out. Each method
  runs as one uninterrupted sequence of steps.
- `Engine.QuestEngine.GenerateRandomQuest`: getRecentQuestHistory is not run
  inside the method. Its result is the parameter `recent`, which the method
  requires to hold exactly the rows of the recent-history query (`RecentRows`),
  newest first. Ties in completion time may come in either order, as SQL leaves
  them unspecified.
- `Engine.QuestEngine.GenerateRandomQuest`: the category query of
  getAvailableQuests (api/src/engine/quest-engine.ts:143-147) has no ORDER BY, so
  the database may return its rows in any order. The model fixes catalog order
  for them, and the wheel's pick by index is stated for that order only. Any
  other order yields the same set of candidates but may pick a different quest
  for the same `u`.
- `Engine.QuestEngine.GetAvailableQuests`: for the same reason, the order of its
  result is catalog order in the model; which quests it holds does not depend on
  the order.
- `Engine.RecentRows`: its contract states the cutoff and the join for each row
  it returns. That every qualifying row appears is stated only by its definition.
- `getActiveQuests` and `getUserProfile` are not part of this model. They are
  plain reports with no logic of their own.
- `api/src/util/api-utils.ts` and `api/src/index.ts` are not part of this model.
  They are the HTTP layer.
- The casts from database values (`as number`, `as string`) are not modelled:
  columns have their declared types. For `current_level || 1`, 0 is the only
  falsy integer, so only a level of 0 reads as 1.
- Every stored level is the level its stored total XP stands for
  (`Engine.LevelsFollowXp`, part of the engine's invariant). User rows are created
  outside this model, at 0 XP and level 1 (`api/src/util/api-utils.ts`), and the
  constructor takes that as given for the rows it starts from.
- Quest ids are unique in the catalog (the table's key). The JOINs therefore find
  at most one definition per history row, and the model looks that definition up.
