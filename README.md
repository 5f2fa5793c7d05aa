# Fishbrain fish-health core, in Dafny

Fishbrain is a virtual-pet trivia game: a fish loses health as time passes and
regains it when the player answers a quiz question correctly. This project
models the game's logic core and proves properties of it:

- the health arithmetic: step-wise decay of 5 points per whole 4-hour period,
  clamped at 0; the +10 correct-answer bonus, capped at 100; revival at 50; the
  death test; the four health states; the time to the next decay and its text;
- the two duplicate copies of that arithmetic, in `constants/game.ts` and
  `constants/fish.ts`, and the proof that they agree with `utils/health.ts`;
- the game reducer over the seven actions, the default record, load-time
  hydration, and the invariants the reducer keeps;
- question selection: the pool of unanswered questions, the random draw with
  its fall-back to the full bank, the current-question slot, answer checking;
- the decay scheduler's decisions: when a recalculation runs, what it
  dispatches, and the foreground-transition test with its remembered app state;
- the derived flags, the accuracy percentage, the action helpers and the
  health-bar colour.

`Date.now()` is the parameter `now`, and `Math.random()` is the parameter
`rand` with `0.0 <= rand < 1.0`. JavaScript numbers are modelled as unbounded
integers. JavaScript's truncating `%` is written out as `Health.JsRem`.
Dafny's `/` with a positive divisor floors, as `Math.floor` of the quotient does.

Files: `types.dfy` holds the records and the action union. The other files have
one module each: `game_constants.dfy`, `fish.dfy`, `health.dfy`,
`number_text.dfy`, `game_reducer.dfy`, `questions.dfy`, `health_decay.dfy`,
`game_derived.dfy` and `theme.dfy`. `number_text.dfy` models how a template
literal prints an integer.

Where the design description and the code disagree, the model follows the code:

- The code has no guard against a clock that reads earlier than `lastFeedTime`.
  Such a clock adds health (see Findings).
- The reducer lets ids repeat in `answeredQuestionIds`, so uniqueness is not
  claimed.
- The reducer accepts REVIVE_FISH and RESET_GAME in any state. REVIVE_FISH sets
  the health to 50 even when it was higher (`GameReducer.OnlyUpdateReviveOrLoadLowerHealth`
  names it as a way to lower health).
- The thresholds are classified twice. `Health.HealthStateCopiesAgree` proves
  that the two copies agree for every health value.

## Model

| member | source | states |
|---|---|---|
| GameConstants.CalculateHealthDecay | fishbrain/src/constants/game.ts:19-28 | result is never negative; for non-negative elapsed time and health it never exceeds the last health; it is 0 or the health minus 5 per whole elapsed period |
| GameConstants.CalculateHealthGain | fishbrain/src/constants/game.ts:31-33 | result is at most 100; it is never below the input when the input is at most 100; it is input + 10 up to 90 and 100 from 90 up |
| GameConstants.CalculateHealthDecayPerPeriod | fishbrain/src/constants/game.ts:24-27 | after k whole periods plus any partial period, exactly 5k points are gone (clamped at 0); a partial period removes nothing |
| GameConstants.CalculateHealthDecayNonIncreasing | fishbrain/src/constants/game.ts:24-27 | a later current time never yields more health |
| Fish.GetHealthState | fishbrain/src/constants/fish.ts:30-35 | dead iff health <= 0, critical iff 0 < h < 30, hungry iff 30 <= h < 70, thriving iff h >= 70 |
| Fish.GetHealthStateMonotone | fishbrain/src/constants/fish.ts:30-35 | higher health never gives a worse state in the order dead < critical < hungry < thriving |
| Fish.FishOptionsListEachTypeOnce | fishbrain/src/constants/fish.ts:38 | every fish type occurs exactly once in FISH_OPTIONS |
| Fish.FishConfigCoversEveryType | fishbrain/src/constants/fish.ts:4-20 | FISH_CONFIG has an entry for every fish type, and different types have different names |
| NumberText.IntText | fishbrain/src/utils/health.ts:54-56 | the printed form is non-empty; it starts with a digit iff the number is non-negative; a non-negative number prints as its shortest decimal digits (NatText) and a negative one as '-' followed by the digits of its magnitude |
| NumberText.NatTextRoundTrip | fishbrain/src/utils/health.ts:54-56 | reading the printed digits back gives the number |
| NumberText.NatTextInjective | fishbrain/src/utils/health.ts:54-56 | two different naturals are printed differently |
| Health.GetCurrentHealth | fishbrain/src/utils/health.ts:6-15 | decayed health is never negative; it never exceeds a non-negative input over non-negative elapsed time |
| Health.ApplyCorrectAnswerBonus | fishbrain/src/utils/health.ts:18-20 | result is at most 100; it is at least the input when the input is at most 100; it is input + 10 when the input is at most 90 |
| Health.GetRevivalHealth | fishbrain/src/utils/health.ts:23-25 | revival health is 50: alive, at most the maximum, and in the hungry state |
| Health.IsFishDead | fishbrain/src/utils/health.ts:28-30 | dead iff health <= 0 iff the health state is dead |
| Health.GetHealthStateFromValue | fishbrain/src/utils/health.ts:33-38 | dead iff h <= 0, critical iff 0 < h < 30, hungry iff 30 <= h < 70, thriving iff h >= 70 |
| Health.JsRem | fishbrain/src/utils/health.ts:44 | JavaScript remainder: in [0, b) for a non-negative dividend, where it equals Dafny's `%`; in (-b, 0] for a negative dividend |
| Health.JsRemSignSymmetric | fishbrain/src/utils/health.ts:44 | negating the dividend negates the remainder |
| Health.GetTimeUntilNextDecay | fishbrain/src/utils/health.ts:41-46 | for non-negative elapsed time the wait lies in (0, 4 h] and elapsed + wait is a whole number of periods; for negative elapsed time it lies in [4 h, 8 h) |
| Health.NextDecayIsNextDrop | fishbrain/src/utils/health.ts:41-46 | health stays constant for every wait shorter than the result, and drops by exactly one step (clamped) after exactly the result |
| Health.TimeParts | fishbrain/src/utils/health.ts:50-51 | for ms >= 0 the hours are non-negative, the minutes lie in [0, 59], and hours:minutes is ms truncated to whole minutes |
| Health.FormatTimeRemaining | fishbrain/src/utils/health.ts:49-57 | text ends in 'm'; for ms >= 0 it contains 'h' iff hours > 0, then it starts with the hours followed by "h "; otherwise everything before the final 'm' is digits; the digits between the "h " (or the start) and the final 'm' read back as the minutes; the whole text is exactly the hours' decimal digits and "h " (when hours > 0) followed by the minutes' decimal digits without leading zeros and 'm' |
| Health.DecayCopiesAgree | fishbrain/src/constants/game.ts:19-28 | calculateHealthDecay and getCurrentHealth give the same value for every input at the same clock reading |
| Health.BonusCopiesAgree | fishbrain/src/constants/game.ts:31-33 | calculateHealthGain equals applyCorrectAnswerBonus for every input, and maps 100 to 100 |
| Health.HealthStateCopiesAgree | fishbrain/src/constants/fish.ts:30-35 | getHealthState and getHealthStateFromValue agree for every health value |
| Health.DecayAfterPeriods | fishbrain/src/utils/health.ts:11-14 | after k whole periods plus a partial one, the health is max(0, h - 5k) |
| Health.DecayConstantWithinPeriod | fishbrain/src/utils/health.ts:11-14 | health is the same for every clock reading inside one period |
| Health.DecayAcrossBoundary | fishbrain/src/utils/health.ts:11-14 | one more period lowers the health by exactly 5, clamped at 0 |
| Health.DecayNonIncreasing | fishbrain/src/utils/health.ts:12-14 | health never rises as the clock advances |
| Health.ClockSkewRaisesHealth | fishbrain/src/utils/health.ts:11-14 | as written, a clock 1 ms before lastFeedTime turns health 100 into 105 |
| Health.GetCurrentHealthGuarded | fishbrain/src/utils/health.ts:11-14 | corrected decay: always between 0 and the clamped input; equal to getCurrentHealth for non-negative elapsed time; no change for negative elapsed time |
| GameReducer.DefaultGameState | fishbrain/src/services/storage.ts:8-17 | default record: no fish, onboarding not done, health 100 (thriving), counters 0, no ids; it satisfies the invariants |
| GameReducer.ClampHealth | fishbrain/src/context/GameContext.tsx:42 | result in [0, 100]; in-range values are kept, values below go to 0 and values above go to 100 |
| GameReducer.Reduce | fishbrain/src/context/GameContext.tsx:28-101 | LOAD_STATE yields its payload; every other action keeps 0 <= health <= 100, 0 <= streak <= totalCorrect <= totalAnswered and one logged id per answer; only LOAD_STATE and RESET_GAME can drop logged ids |
| GameReducer.SetFishTypeEffect | fishbrain/src/context/GameContext.tsx:30-37 | SET_FISH_TYPE sets the fish, completes onboarding and sets lastFeedTime to now; every other field is unchanged |
| GameReducer.UpdateHealthEffect | fishbrain/src/context/GameContext.tsx:39-44 | UPDATE_HEALTH stores the payload when it lies in [0, 100], 0 for a negative payload and 100 above 100, and changes nothing else |
| GameReducer.FeedCorrectEffect | fishbrain/src/context/GameContext.tsx:50-60 | a correct FEED_FISH sets health to min(100, h + 10) and lastFeedTime to now, adds 1 to streak, totalCorrect and totalAnswered, and appends the id |
| GameReducer.FeedWrongEffect | fishbrain/src/context/GameContext.tsx:61-68 | a wrong FEED_FISH zeroes the streak, adds 1 to totalAnswered, appends the id, and changes nothing else |
| GameReducer.ResetStreakEffect | fishbrain/src/context/GameContext.tsx:71-76 | RESET_STREAK changes only the streak, to 0 |
| GameReducer.ReviveFishEffect | fishbrain/src/context/GameContext.tsx:78-85 | REVIVE_FISH sets health to 50 (alive), lastFeedTime to now and streak to 0; counters, ids and fish fields are unchanged |
| GameReducer.ResetGameEffect | fishbrain/src/context/GameContext.tsx:91-96 | RESET_GAME yields the default record stamped now: no fish, health 100, counters 0, no ids, onboarding not done |
| GameReducer.Hydrate | fishbrain/src/context/GameContext.tsx:118-126 | hydration replaces only the health, with getCurrentHealth of the saved health and lastFeedTime at now, which is non-negative; for a valid saved record and a clock not behind it, the result is valid and no healthier |
| GameReducer.InitializeState | fishbrain/src/context/GameContext.tsx:114-127 | with nothing saved the state is untouched; otherwise it is the saved record with only its health replaced by the decayed health |
| GameReducer.OnlyUpdateReviveOrLoadLowerHealth | fishbrain/src/context/GameContext.tsx:28-101 | from a valid state, no action other than UPDATE_HEALTH, REVIVE_FISH and LOAD_STATE lowers the health |
| GameReducer.OnlyUpdateOrLoadKill | fishbrain/src/context/GameContext.tsx:28-101 | a live fish stays alive under every action except UPDATE_HEALTH and LOAD_STATE |
| GameReducer.CountersMonotone | fishbrain/src/context/GameContext.tsx:28-101 | apart from RESET_GAME and LOAD_STATE, totalCorrect, totalAnswered and the id log never shrink |
| GameReducer.RunPreservesValid | fishbrain/src/context/GameContext.tsx:28-101 | any sequence of actions without LOAD_STATE, starting from a valid state, ends in a valid state |
| Questions.AvailableQuestions | fishbrain/src/hooks/useQuestions.ts:15-19 | the pool is a subsequence of the bank (order kept) holding exactly the questions whose id is unanswered, each with its full multiplicity |
| Questions.HasQuestions | fishbrain/src/hooks/useQuestions.ts:22 | true iff some question of the bank has an unanswered id |
| Questions.RandomIndex | fishbrain/src/hooks/useQuestions.ts:32 | floor(rand * n) is a valid index when n > 0 |
| Questions.EveryIndexReachable | fishbrain/src/hooks/useQuestions.ts:32 | every index below n is drawn by some rand in [0, 1) |
| Questions.GetRandomQuestion | fishbrain/src/hooks/useQuestions.ts:25-34 | returns nothing only for an empty bank; while the pool is non-empty it returns a pool member, so never an answered question; otherwise it returns a bank member |
| Questions.GetRandomQuestionReachesPool | fishbrain/src/hooks/useQuestions.ts:32-33 | every question of a non-empty pool is returned for some rand |
| Questions.GetRandomQuestionFallbackReachesBank | fishbrain/src/hooks/useQuestions.ts:26-29 | once the pool is exhausted, every question of the bank is returned for some rand |
| Questions.AnsweredCount | fishbrain/src/hooks/useQuestions.ts:62 | for a valid state the answered count equals totalAnswered |
| Questions.NothingAnsweredKeepsBank | fishbrain/src/hooks/useQuestions.ts:15-19 | with no answered ids the pool is the whole bank |
| Questions.QuestionSelector.constructor | fishbrain/src/hooks/useQuestions.ts:12 | the current-question slot starts empty |
| Questions.QuestionSelector.TotalQuestions | fishbrain/src/hooks/useQuestions.ts:61 | the result is the bank size; it bounds every pool and equals the size of the pool with nothing answered |
| Questions.QuestionSelector.SelectNewQuestion | fishbrain/src/hooks/useQuestions.ts:37-41 | the question returned is the one drawn, and it is stored in the slot |
| Questions.QuestionSelector.ClearQuestion | fishbrain/src/hooks/useQuestions.ts:44-46 | the slot becomes empty |
| Questions.QuestionSelector.CheckAnswer | fishbrain/src/hooks/useQuestions.ts:49-55 | false with an empty slot; otherwise true iff the correct index equals the given index |
| HealthDecay.RecalculateHealth | fishbrain/src/hooks/useHealthDecay.ts:15-22 | nothing is dispatched for a dead fish; UPDATE_HEALTH with the decayed health is dispatched iff the fish is alive and that value differs; over non-negative elapsed time the value lies in [0, health) |
| HealthDecay.Tick | fishbrain/src/hooks/useHealthDecay.ts:15-22 | one recalculation stores the decayed health (getCurrentHealth, clamped to [0, 100]) for a live fish in a valid state, changes only the health, keeps a valid state valid, and never raises the health over non-negative elapsed time |
| HealthDecay.DecayTimerArmed | fishbrain/src/hooks/useHealthDecay.ts:26 | the timer is armed iff loading is finished and onboarding is complete |
| HealthDecay.PeriodicRecalculation | fishbrain/src/hooks/useHealthDecay.ts:25-34 | the initial and periodic runs dispatch nothing unless armed, and otherwise dispatch the recalculation |
| HealthDecay.ComesToForegroundExactly | fishbrain/src/hooks/useHealthDecay.ts:49-52 | the regex test plus next == active holds iff the previous status is inactive or background and the next is active |
| HealthDecay.ForegroundWatcher.constructor | fishbrain/src/hooks/useHealthDecay.ts:12 | the remembered status starts as the given status |
| HealthDecay.ForegroundWatcher.OnChange | fishbrain/src/hooks/useHealthDecay.ts:47-56 | recalculates exactly on a transition to the foreground and dispatches nothing otherwise; the remembered status becomes the new one in every case |
| HealthDecay.TicksCompound | fishbrain/src/hooks/useHealthDecay.ts:15-22 | as written, two recalculations (or two hydrations) at the same instant after one period take health 100 to 90, not 95 |
| HealthDecay.SettleDecay | fishbrain/src/hooks/useHealthDecay.ts:15-22 | corrected recalculation: gives the same health as getCurrentHealth and moves lastFeedTime forward, never past now; a dead fish is left unchanged; nothing else changes |
| HealthDecay.SettleDecayPathIndependent | fishbrain/src/hooks/useHealthDecay.ts:15-22 | settling at t1 and then at t2 leaves the same health as settling once at t2 |
| HealthDecay.SettleDecayIdempotent | fishbrain/src/hooks/useHealthDecay.ts:15-22 | a second settlement at the same instant does not lower the health further |
| GameDerived.Accuracy | fishbrain/src/hooks/useGameState.ts:28-31 | 0 when nothing was answered; otherwise the integer nearest to 100·correct/answered, halves rounded up; in [0, 100] when 0 <= correct <= answered; 100 when all answers were correct |
| GameDerived.UseGameDerived | fishbrain/src/hooks/useGameState.ts:17-33 | isDead iff health <= 0 iff the state is dead; needsOnboarding iff onboarding is not done or there is no fish; the health state is dead, critical, hungry or thriving on the thresholds 0, 30 and 70; accuracy is the round-half-up percentage of correct answers (Accuracy), in [0, 100] for a valid state and 0 with no answers |
| GameDerived.SelectFish | fishbrain/src/hooks/useGameState.ts:39-41 | dispatches SET_FISH_TYPE carrying the fish type |
| GameDerived.FeedFishAction | fishbrain/src/hooks/useGameState.ts:43-45 | dispatches FEED_FISH carrying the question id and the verdict |
| GameDerived.UpdateHealthAction | fishbrain/src/hooks/useGameState.ts:47-49 | dispatches UPDATE_HEALTH carrying the health |
| GameDerived.ReviveFishAction | fishbrain/src/hooks/useGameState.ts:51-53 | dispatches REVIVE_FISH |
| GameDerived.ResetGameAction | fishbrain/src/hooks/useGameState.ts:55-57 | dispatches RESET_GAME |
| GameDerived.HelpersDriveTheGame | fishbrain/src/hooks/useGameState.ts:39-57 | selecting a fish ends onboarding; reviving leaves the fish alive; resetting needs onboarding again with a thriving fish; feeding logs the id, and a correct answer leaves the fish alive |
| Theme.GetHealthColor | fishbrain/src/constants/theme.ts:33-37 | primary iff h >= 70, warning iff 30 <= h < 70, danger iff h < 30 |
| Theme.HealthColorTracksState | fishbrain/src/constants/theme.ts:33-37 | for a live fish, thriving iff primary, hungry iff warning, critical iff danger; a dead fish shows danger |

## Left out

- Persistence: AsyncStorage and JSON (de)serialisation in `fishbrain/src/services/storage.ts` are calls into a library. Only the default record is modelled, so the lossless round trip through storage is not stated. A malformed saved record is not modelled either.
- React machinery: `useReducer`, the context provider, `isLoading` sequencing and the save-on-change effect are not modelled. `InitializeState` models only the decision made at load time.
- Timers and app-state events: `setInterval`, `clearInterval` and the AppState subscription decide only when the modelled decisions run. The model takes the game state as an explicit argument. In the source, the interval callback keeps the state captured when its effect was set up.
- Nondeterminism: `Date.now()` is the parameter `now`, and `Math.random()` is the parameter `rand`.
- Questions.GetRandomQuestion: the contract states membership, and every pool entry is reachable. It does not state that the draw is uniform, because the distribution of `Math.random()` is not modelled.
- GameDerived.Accuracy: it rounds the exact rational half-up. `Math.round` of the floating-point quotient may differ at ties that floats cannot represent exactly.
- Numbers: health, counters and timestamps are unbounded integers. Fractional values and NaN are not modelled.
- The question dataset (`data/questions.json`) is not part of this model. The bank is an arbitrary sequence of questions.
- The `default` branch of the reducer cannot be reached with the seven typed actions, so it is not modelled.
- The display parts of FISH_CONFIG are kept as plain strings. The emoji are the code points U+1F420, U+1F41F and U+1F421. The rest of `theme.ts` (spacing, radii, font sizes, other colours) is styling.
- Screens, animations and components are presentation and are not modelled.

## Findings

| source | as written | input that shows it | evidently intended | confidence | as-written member | corrected member |
|---|---|---|---|---|---|---|
| fishbrain/src/hooks/useHealthDecay.ts:15-22 | UPDATE_HEALTH stores the decayed health and keeps lastFeedTime. Each later recalculation (on a return to the foreground, or on hydration after a relaunch) subtracts the whole decay since lastFeedTime again. | health 100, lastFeedTime 0, two recalculations at now = 14 400 000: 100 → 95 → 90 | one 5-point step per elapsed period, however often health is recomputed | medium, not executed | HealthDecay.TicksCompound | HealthDecay.SettleDecay |
| fishbrain/src/utils/health.ts:11-14 | A clock behind lastFeedTime gives a negative period count, so decay adds health, even beyond 100 | health 100, lastFeedTime 1, now 0: result 105 | negative elapsed time causes neither decay nor gain | medium, not executed | Health.ClockSkewRaisesHealth | Health.GetCurrentHealthGuarded |

The reducer and the scheduler model keep the code as written. The corrected
members stand beside them with their properties proved:
`HealthDecay.SettleDecayPathIndependent` for the first row, and the contract of
`Health.GetCurrentHealthGuarded` for the second.
