/** The cooldown test and the candidate filter of quest selection. */
module Availability {
  import opened QuestTypes

  /** A history row recording that `user` completed `quest`, with its completion time. */
  predicate IsCompletionOf(h: HistoryEntry, user: string, quest: string) {
    h.userId == user && h.questId == quest && h.state == Completed && h.completedAt.Some?
  }

  /** The latest completion time of `quest` by `user`, if any
      (the completed rows ordered by completed_at DESC, first one). */
  function LastCompletedAt(history: seq<HistoryEntry>, user: string, quest: string): (r: Option<int>)
    ensures r.None? <==> forall i :: 0 <= i < |history| ==> !IsCompletionOf(history[i], user, quest)
    ensures r.Some? ==> exists i :: 0 <= i < |history| && IsCompletionOf(history[i], user, quest) &&
                                    history[i].completedAt.value == r.value
    ensures r.Some? ==> forall i :: 0 <= i < |history| && IsCompletionOf(history[i], user, quest) ==>
                                    history[i].completedAt.value <= r.value
  {
    if history == [] then None
    else
      var rest := LastCompletedAt(history[1..], user, quest);
      assert forall i :: 1 <= i < |history| ==> history[i] == history[1..][i - 1];
      if !IsCompletionOf(history[0], user, quest) then rest
      else if rest.Some? && rest.value >= history[0].completedAt.value then rest
      else Some(history[0].completedAt.value)
  }

  /** isQuestAvailable: never completed, or the cooldown after the latest completion
      has run out (the boundary instant counts as available). */
  predicate IsQuestAvailable(history: seq<HistoryEntry>, user: string, quest: string, cooldownHours: int, now: int) {
    match LastCompletedAt(history, user, quest)
    case None => true
    case Some(t) => now >= t + cooldownHours * HOUR_MS
  }

  /** The quest_definitions rows of an unlocked category that are active,
      in catalog order (the SELECT of getAvailableQuests). */
  function CategoryQuests(catalog: seq<QuestDefinition>, tiers: seq<string>): (r: seq<QuestDefinition>)
    ensures |r| <= |catalog|
    ensures forall q :: q in r <==> q in catalog && q.category in tiers && q.isActive
  {
    if catalog == [] then []
    else
      var last := catalog[|catalog| - 1];
      assert catalog == catalog[..|catalog| - 1] + [last];
      CategoryQuests(catalog[..|catalog| - 1], tiers) + (if last.category in tiers && last.isActive then [last] else [])
  }

  /** The quests of `quests` that are off cooldown for `user` at `now`, in order
      (the loop of getAvailableQuests). */
  function OffCooldown(quests: seq<QuestDefinition>, history: seq<HistoryEntry>, user: string, now: int): seq<QuestDefinition>
  {
    if quests == [] then []
    else
      var last := quests[|quests| - 1];
      OffCooldown(quests[..|quests| - 1], history, user, now) +
        (if IsQuestAvailable(history, user, last.id, last.cooldownHours, now) then [last] else [])
  }

  /** The candidates of one selection: category unlocked, active, off cooldown. */
  function AvailableQuests(catalog: seq<QuestDefinition>, tiers: seq<string>, history: seq<HistoryEntry>, user: string, now: int): seq<QuestDefinition>
  {
    OffCooldown(CategoryQuests(catalog, tiers), history, user, now)
  }

  /** Availability against an independent reading of the cooldown rule: a quest is
      available exactly when every recorded completion's cooldown has run out by `now`. */
  lemma AvailableIffEveryCooldownElapsed(history: seq<HistoryEntry>, user: string, quest: string, cooldownHours: int, now: int)
    ensures IsQuestAvailable(history, user, quest, cooldownHours, now) <==>
            forall i :: 0 <= i < |history| && IsCompletionOf(history[i], user, quest) ==>
                          history[i].completedAt.value + cooldownHours * HOUR_MS <= now
  {
    var last := LastCompletedAt(history, user, quest);
    if last.Some? {
      var i :| 0 <= i < |history| && IsCompletionOf(history[i], user, quest) && history[i].completedAt.value == last.value;
    }
  }

  /** A quest the user never completed is available whatever its cooldown. */
  lemma NeverCompletedIsAvailable(history: seq<HistoryEntry>, user: string, quest: string, cooldownHours: int, now: int)
    requires forall i :: 0 <= i < |history| ==> !IsCompletionOf(history[i], user, quest)
    ensures IsQuestAvailable(history, user, quest, cooldownHours, now)
  {
  }

  /** The cooldown boundary: available at exactly completion + cooldown, not one second earlier. */
  lemma CooldownBoundary(history: seq<HistoryEntry>, user: string, quest: string, cooldownHours: int, t: int)
    requires LastCompletedAt(history, user, quest) == Some(t)
    ensures IsQuestAvailable(history, user, quest, cooldownHours, t + cooldownHours * HOUR_MS)
    ensures !IsQuestAvailable(history, user, quest, cooldownHours, t + cooldownHours * HOUR_MS - 1000)
  {
  }

  /** Once available, a quest stays available as time passes (until it is completed again). */
  lemma AvailabilityPersists(history: seq<HistoryEntry>, user: string, quest: string, cooldownHours: int, now: int, later: int)
    requires now <= later
    requires IsQuestAvailable(history, user, quest, cooldownHours, now)
    ensures IsQuestAvailable(history, user, quest, cooldownHours, later)
  {
  }

  /** OffCooldown keeps exactly the quests that are available, and nothing else. */
  lemma {:induction false} OffCooldownMembers(quests: seq<QuestDefinition>, history: seq<HistoryEntry>, user: string, now: int)
    ensures |OffCooldown(quests, history, user, now)| <= |quests|
    ensures forall q :: q in OffCooldown(quests, history, user, now) <==>
                          q in quests && IsQuestAvailable(history, user, q.id, q.cooldownHours, now)
  {
    if quests != [] {
      var init := quests[..|quests| - 1];
      assert quests == init + [quests[|quests| - 1]];
      OffCooldownMembers(init, history, user, now);
    }
  }

  /** A candidate is a catalog quest of an unlocked category, active and off cooldown;
      every such quest is a candidate. */
  lemma AvailableQuestsMembers(catalog: seq<QuestDefinition>, tiers: seq<string>, history: seq<HistoryEntry>, user: string, now: int, q: QuestDefinition)
    ensures q in AvailableQuests(catalog, tiers, history, user, now) <==>
            q in catalog && q.category in tiers && q.isActive &&
            IsQuestAvailable(history, user, q.id, q.cooldownHours, now)
  {
    OffCooldownMembers(CategoryQuests(catalog, tiers), history, user, now);
  }
}
