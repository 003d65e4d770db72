/** The arithmetic and the history update of quest completion (completeQuest). */
module Completion {
  import opened QuestTypes
  import opened Availability

  /** The level a total XP stands for: 100 XP per level, level 1 from 0 XP. */
  function LevelFor(totalXp: int): (level: int)
    ensures 100 * (level - 1) <= totalXp < 100 * level
    ensures totalXp >= 0 ==> level >= 1
  {
    totalXp / 100 + 1
  }

  /** An active history row of `quest` for `user`. */
  predicate IsActiveFor(h: HistoryEntry, user: string, quest: string) {
    h.userId == user && h.questId == quest && h.state == Active
  }

  predicate HasActive(history: seq<HistoryEntry>, user: string, quest: string) {
    exists i :: 0 <= i < |history| && IsActiveFor(history[i], user, quest)
  }

  /** The UPDATE of completeQuest: every active row of (user, quest), not only the
      latest, becomes completed at `now` with `xp` earned; all other rows stay. */
  function MarkCompleted(history: seq<HistoryEntry>, user: string, quest: string, now: int, xp: int): (r: seq<HistoryEntry>)
    ensures |r| == |history|
    ensures !HasActive(r, user, quest)
    ensures forall i :: 0 <= i < |history| && !IsActiveFor(history[i], user, quest) ==> r[i] == history[i]
    ensures forall i :: 0 <= i < |history| && IsActiveFor(history[i], user, quest) ==>
              IsCompletionOf(r[i], user, quest) && r[i].completedAt == Some(now) && r[i].xpEarned == Some(xp) &&
              r[i].assignedAt == history[i].assignedAt && r[i].deadline == history[i].deadline &&
              r[i].currentProgress == history[i].currentProgress
  {
    seq(|history|, i requires 0 <= i < |history| =>
      if IsActiveFor(history[i], user, quest)
      then history[i].(state := Completed, completedAt := Some(now), xpEarned := Some(xp))
      else history[i])
  }

  /** A reward that is not negative never lowers the level the total stands for. */
  lemma LevelNeverDrops(oldXp: int, xp: int)
    requires xp >= 0
    ensures LevelFor(oldXp + xp) >= LevelFor(oldXp)
  {
    var a, b := LevelFor(oldXp), LevelFor(oldXp + xp);
    assert 100 * (a - 1) <= oldXp < 100 * a;
    assert 100 * (b - 1) <= oldXp + xp < 100 * b;
  }

  /** The level-up flag compares the level of the new total with the stored level: it
      is set exactly when the new total reaches 100 times the stored level, the XP at
      which the level after it starts. */
  lemma LevelUpIffThresholdReached(newTotal: int, oldLevel: int)
    ensures LevelFor(newTotal) > oldLevel <==> newTotal >= 100 * oldLevel
  {
    var b := LevelFor(newTotal);
    assert 100 * (b - 1) <= newTotal < 100 * b;
  }

  /** The worked example: 0 XP plus 150 XP is level 2, a level up from level 1. */
  lemma FirstCompletionExample()
    ensures LevelFor(0 + 150) == 2 && LevelFor(0 + 150) > 1
  {
  }

  /** Rows of other users or other quests are untouched, so their cooldowns do not move. */
  lemma MarkCompletedKeepsOtherCooldowns(history: seq<HistoryEntry>, user: string, quest: string, now: int, xp: int,
                                          otherUser: string, otherQuest: string)
    requires otherUser != user || otherQuest != quest
    ensures LastCompletedAt(MarkCompleted(history, user, quest, now, xp), otherUser, otherQuest) ==
            LastCompletedAt(history, otherUser, otherQuest)
  {
    var after := MarkCompleted(history, user, quest, now, xp);
    assert forall i :: 0 <= i < |history| ==>
      (IsCompletionOf(after[i], otherUser, otherQuest) <==> IsCompletionOf(history[i], otherUser, otherQuest)) &&
      (IsCompletionOf(after[i], otherUser, otherQuest) ==> after[i].completedAt == history[i].completedAt);
    LastCompletedAtSameCompletions(history, after, otherUser, otherQuest);
  }

  /** LastCompletedAt depends only on the completion rows of (user, quest) and their times. */
  lemma {:induction false} LastCompletedAtSameCompletions(h1: seq<HistoryEntry>, h2: seq<HistoryEntry>, user: string, quest: string)
    requires |h1| == |h2|
    requires forall i :: 0 <= i < |h1| ==>
      (IsCompletionOf(h1[i], user, quest) <==> IsCompletionOf(h2[i], user, quest)) &&
      (IsCompletionOf(h1[i], user, quest) ==> h1[i].completedAt == h2[i].completedAt)
    ensures LastCompletedAt(h1, user, quest) == LastCompletedAt(h2, user, quest)
  {
    if h1 != [] {
      assert forall i :: 1 <= i < |h1| ==> h1[1..][i - 1] == h1[i] && h2[1..][i - 1] == h2[i];
      LastCompletedAtSameCompletions(h1[1..], h2[1..], user, quest);
    }
  }

  /** Completing an active quest starts its cooldown: with a positive cooldown it is not
      available again before `now + cooldown`, and it is from that instant on when no
      recorded completion lies later than `now`. */
  lemma CompletionStartsCooldown(history: seq<HistoryEntry>, user: string, quest: string, now: int, xp: int,
                                 cooldownHours: int, later: int)
    requires HasActive(history, user, quest)
    ensures var after := MarkCompleted(history, user, quest, now, xp);
            later < now + cooldownHours * HOUR_MS ==> !IsQuestAvailable(after, user, quest, cooldownHours, later)
    ensures var after := MarkCompleted(history, user, quest, now, xp);
            (forall i :: 0 <= i < |history| && IsCompletionOf(history[i], user, quest) ==> history[i].completedAt.value <= now) ==>
            (IsQuestAvailable(after, user, quest, cooldownHours, later) <==> later >= now + cooldownHours * HOUR_MS)
  {
    var after := MarkCompleted(history, user, quest, now, xp);
    var k :| 0 <= k < |history| && IsActiveFor(history[k], user, quest);
    assert IsCompletionOf(after[k], user, quest) && after[k].completedAt.value == now;
    AvailableIffEveryCooldownElapsed(after, user, quest, cooldownHours, later);
    if forall i :: 0 <= i < |history| && IsCompletionOf(history[i], user, quest) ==> history[i].completedAt.value <= now {
      forall i | 0 <= i < |after| && IsCompletionOf(after[i], user, quest)
        ensures after[i].completedAt.value <= now
      {
        if !IsActiveFor(history[i], user, quest) {
          assert after[i] == history[i];
        }
      }
    }
  }
}
