/**
 * The game reducer (fishbrain/src/context/GameContext.tsx) and the default
 * record it resets to (fishbrain/src/services/storage.ts). The reducer is a
 * total function of the old state, the action and the clock reading `now`.
 */
module GameReducer {
  import opened Types
  import opened GameConstants
  import opened Health

  /** The invariants every action but LOAD_STATE keeps. */
  predicate Valid(s: GameState) {
    && 0 <= s.health <= HEALTH_MAX
    && 0 <= s.streak <= s.totalCorrect <= s.totalAnswered
    && |s.answeredQuestionIds| == s.totalAnswered
  }

  /** DEFAULT_GAME_STATE: no fish yet, full health, nothing answered; `createdAt` is its timestamp. */
  function DefaultGameState(createdAt: int): (s: GameState)
    ensures Valid(s)
    ensures s.fishType == None && !s.hasCompletedOnboarding
    ensures s.health == HEALTH_MAX && Health.GetHealthStateFromValue(s.health) == Thriving
    ensures s.streak == 0 && s.totalAnswered == 0 && s.answeredQuestionIds == []
    ensures s.lastFeedTime == createdAt
  {
    GameState(
      fishType := None,
      health := HEALTH_INITIAL,
      lastFeedTime := createdAt,
      streak := 0,
      totalCorrect := 0,
      totalAnswered := 0,
      answeredQuestionIds := [],
      hasCompletedOnboarding := false)
  }

  /** `Math.max(0, Math.min(HEALTH_MAX, value))`. */
  function ClampHealth(value: int): (h: int)
    ensures 0 <= h <= HEALTH_MAX
    ensures 0 <= value <= HEALTH_MAX ==> h == value
    ensures value < 0 ==> h == 0
    ensures value > HEALTH_MAX ==> h == HEALTH_MAX
  {
    var capped := if HEALTH_MAX <= value then HEALTH_MAX else value;
    if capped <= 0 then 0 else capped
  }

  /** gameReducer. */
  function Reduce(state: GameState, action: GameAction, now: int): (r: GameState)
    ensures action.LoadState? ==> r == action.payload
    ensures !action.LoadState? && Valid(state) ==> Valid(r)
    ensures !action.LoadState? && !action.ResetGame? ==> state.answeredQuestionIds <= r.answeredQuestionIds
  {
    match action
    case SetFishType(fish) =>
      state.(fishType := Some(fish), hasCompletedOnboarding := true, lastFeedTime := now)
    case UpdateHealth(value) =>
      state.(health := ClampHealth(value))
    case FeedFish(questionId, correct) =>
      if correct then
        state.(
          health := ApplyCorrectAnswerBonus(state.health),
          lastFeedTime := now,
          streak := state.streak + 1,
          totalCorrect := state.totalCorrect + 1,
          totalAnswered := state.totalAnswered + 1,
          answeredQuestionIds := state.answeredQuestionIds + [questionId])
      else
        state.(
          streak := 0,
          totalAnswered := state.totalAnswered + 1,
          answeredQuestionIds := state.answeredQuestionIds + [questionId])
    case ResetStreak =>
      state.(streak := 0)
    case ReviveFish =>
      state.(health := GetRevivalHealth(), lastFeedTime := now, streak := 0)
    case LoadState(payload) =>
      payload
    case ResetGame =>
      DefaultGameState(0).(lastFeedTime := now)
  }

  /**
   * The load-time hydration: the saved record with its health re-derived
   * from the time elapsed since its lastFeedTime, and nothing else changed.
   */
  function Hydrate(saved: GameState, now: int): (r: GameState)
    ensures r.(health := saved.health) == saved
    ensures r.health == GetCurrentHealth(saved.health, saved.lastFeedTime, now)
    ensures r.health >= 0
    ensures now >= saved.lastFeedTime && Valid(saved) ==> Valid(r) && r.health <= saved.health
  {
    saved.(health := GetCurrentHealth(saved.health, saved.lastFeedTime, now))
  }

  /** Dispatching LOAD_STATE with the hydrated record installs exactly that record. */
  function InitializeState(current: GameState, saved: Option<GameState>, now: int): (r: GameState)
    ensures saved.None? ==> r == current
    ensures saved.Some? ==> r.(health := saved.value.health) == saved.value
    ensures saved.Some? ==> r.health == GetCurrentHealth(saved.value.health, saved.value.lastFeedTime, now)
  {
    match saved
    case None => current
    case Some(s) => Reduce(current, LoadState(Hydrate(s, now)), now)
  }

  // ---------------------------------------------------------------------------
  // What each action does

  /** SET_FISH_TYPE adopts the fish, completes onboarding and restarts the decay clock; nothing else changes. */
  lemma SetFishTypeEffect(s: GameState, fish: FishType, now: int)
    ensures var r := Reduce(s, SetFishType(fish), now);
            && r.fishType == Some(fish) && r.hasCompletedOnboarding && r.lastFeedTime == now
            && r.(fishType := s.fishType, hasCompletedOnboarding := s.hasCompletedOnboarding, lastFeedTime := s.lastFeedTime) == s
  {
  }

  /** UPDATE_HEALTH sets the health to the payload clamped to [0, HEALTH_MAX]; nothing else changes. */
  lemma UpdateHealthEffect(s: GameState, value: int, now: int)
    ensures var r := Reduce(s, UpdateHealth(value), now);
            && 0 <= r.health <= HEALTH_MAX
            && (0 <= value <= HEALTH_MAX ==> r.health == value)
            && (value < 0 ==> r.health == 0)
            && (value > HEALTH_MAX ==> r.health == HEALTH_MAX)
            && r.(health := s.health) == s
  {
  }

  /** A correct FEED_FISH adds the capped bonus, feeds now, counts one more correct answer and logs the id. */
  lemma FeedCorrectEffect(s: GameState, questionId: string, now: int)
    ensures var r := Reduce(s, FeedFish(questionId, true), now);
            && r.health == (if s.health + CORRECT_ANSWER_BONUS >= HEALTH_MAX then HEALTH_MAX else s.health + CORRECT_ANSWER_BONUS)
            && r.lastFeedTime == now
            && r.streak == s.streak + 1
            && r.totalCorrect == s.totalCorrect + 1
            && r.totalAnswered == s.totalAnswered + 1
            && r.answeredQuestionIds == s.answeredQuestionIds + [questionId]
            && r.fishType == s.fishType && r.hasCompletedOnboarding == s.hasCompletedOnboarding
  {
  }

  /** A wrong FEED_FISH breaks the streak and logs the id; health, feeding time and correct count stay. */
  lemma FeedWrongEffect(s: GameState, questionId: string, now: int)
    ensures var r := Reduce(s, FeedFish(questionId, false), now);
            && r.streak == 0
            && r.totalAnswered == s.totalAnswered + 1
            && r.answeredQuestionIds == s.answeredQuestionIds + [questionId]
            && r.(streak := s.streak, totalAnswered := s.totalAnswered, answeredQuestionIds := s.answeredQuestionIds) == s
  {
  }

  /** RESET_STREAK changes only the streak, to zero. */
  lemma ResetStreakEffect(s: GameState, now: int)
    ensures var r := Reduce(s, ResetStreak, now);
            r.streak == 0 && r.(streak := s.streak) == s
  {
  }

  /** REVIVE_FISH brings the fish back alive at the revival health and restarts the clock and streak. */
  lemma ReviveFishEffect(s: GameState, now: int)
    ensures var r := Reduce(s, ReviveFish, now);
            && r.health == HEALTH_REVIVAL && !IsFishDead(r.health)
            && r.lastFeedTime == now && r.streak == 0
            && r.(health := s.health, lastFeedTime := s.lastFeedTime, streak := s.streak) == s
  {
  }

  /** RESET_GAME starts over from the default record, stamped now. */
  lemma ResetGameEffect(s: GameState, now: int)
    ensures var r := Reduce(s, ResetGame, now);
            && r == DefaultGameState(now)
            && r.fishType == None && r.health == HEALTH_MAX && !r.hasCompletedOnboarding
            && r.streak == 0 && r.totalCorrect == 0 && r.totalAnswered == 0 && r.answeredQuestionIds == []
  {
  }

  // ---------------------------------------------------------------------------
  // Properties across actions

  /** Only UPDATE_HEALTH, REVIVE_FISH and LOAD_STATE can lower the health of a valid state. */
  lemma OnlyUpdateReviveOrLoadLowerHealth(s: GameState, a: GameAction, now: int)
    requires Valid(s)
    requires !a.UpdateHealth? && !a.ReviveFish? && !a.LoadState?
    ensures Reduce(s, a, now).health >= s.health
  {
  }

  /** Feeding never kills: a live fish stays alive under every action but UPDATE_HEALTH and LOAD_STATE. */
  lemma OnlyUpdateOrLoadKill(s: GameState, a: GameAction, now: int)
    requires Valid(s) && !IsFishDead(s.health)
    requires !a.UpdateHealth? && !a.LoadState?
    ensures !IsFishDead(Reduce(s, a, now).health)
  {
  }

  /** Counters never go backwards except through RESET_GAME and LOAD_STATE. */
  lemma CountersMonotone(s: GameState, a: GameAction, now: int)
    requires !a.ResetGame? && !a.LoadState?
    ensures var r := Reduce(s, a, now);
            r.totalCorrect >= s.totalCorrect && r.totalAnswered >= s.totalAnswered
            && |r.answeredQuestionIds| >= |s.answeredQuestionIds|
  {
  }

  /** Any run of actions without LOAD_STATE keeps a valid state valid. */
  lemma {:induction false} RunPreservesValid(s: GameState, actions: seq<GameAction>, times: seq<int>)
    requires Valid(s) && |times| == |actions|
    requires forall i :: 0 <= i < |actions| ==> !actions[i].LoadState?
    ensures Valid(Run(s, actions, times))
    decreases actions
  {
    if actions != [] {
      RunPreservesValid(Reduce(s, actions[0], times[0]), actions[1..], times[1..]);
    }
  }

  /** The state after dispatching `actions` in order, the i-th at clock reading `times[i]`. */
  function Run(s: GameState, actions: seq<GameAction>, times: seq<int>): GameState
    requires |times| == |actions|
    decreases actions
  {
    if actions == [] then s else Run(Reduce(s, actions[0], times[0]), actions[1..], times[1..])
  }
}
