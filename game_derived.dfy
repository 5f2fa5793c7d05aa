/**
 * Values derived from the game state and the action helpers
 * (fishbrain/src/hooks/useGameState.ts).
 */
module GameDerived {
  import opened Types
  import opened Health
  import opened GameReducer

  /** What useGameDerived returns. */
  datatype Derived = Derived(healthState: HealthState, isDead: bool, needsOnboarding: bool, accuracy: int)

  /**
   * `Math.round(correct / answered * 100)` when something was answered, else 0,
   * computed exactly: rounding to the nearest integer with halves going up.
   */
  function Accuracy(correct: int, answered: int): (a: int)
    ensures answered <= 0 ==> a == 0
    ensures answered > 0 ==> (2 * a - 1) * answered <= 200 * correct < (2 * a + 1) * answered
    ensures 0 <= correct <= answered ==> 0 <= a <= 100
    ensures 0 < answered && correct == answered ==> a == 100
  {
    if answered > 0 then
      var a := (200 * correct + answered) / (2 * answered);
      NearestPercent(correct, answered);
      a
    else 0
  }

  lemma NearestPercent(correct: int, answered: int)
    requires answered > 0
    ensures var a := (200 * correct + answered) / (2 * answered);
            && (2 * a - 1) * answered <= 200 * correct < (2 * a + 1) * answered
            && (0 <= correct <= answered ==> 0 <= a <= 100)
            && (correct == answered ==> a == 100)
  {
    var n, d := 200 * correct + answered, 2 * answered;
    var a := n / d;
    var p := a * answered;
    assert a * d == 2 * p;
    assert 2 * p <= n < 2 * p + d;
    assert (2 * a - 1) * answered == 2 * p - answered;
    assert (2 * a + 1) * answered == 2 * p + answered;
    if 0 <= correct <= answered {
      assert 101 * d == 202 * answered;
      QuotientBelow(n, d, 101);
    }
    if correct == answered {
      assert n == 100 * d + answered;
      QuotientOf(100, d, answered);
    }
  }

  /** Below k whole divisors the floor quotient is below k. */
  lemma QuotientBelow(n: int, d: int, k: int)
    requires 0 <= n < k * d && d > 0
    ensures 0 <= n / d < k
  {
    var q := n / d;
    assert q * d <= n;
    assert (k - q) * d > 0;
  }

  /** The floor quotient of q divisors plus a smaller remainder is q. */
  lemma QuotientOf(q: int, d: int, r: int)
    requires 0 <= r < d
    ensures (q * d + r) / d == q
  {
    var q' := (q * d + r) / d;
    var r' := (q * d + r) % d;
    assert q' * d + r' == q * d + r;
    assert (q' - q) * d == r - r';
    WholeMultiples(q' - q, d);
  }

  /** A non-zero multiple of d is at least d away from zero. */
  lemma WholeMultiples(x: int, d: int)
    requires d > 0
    ensures x >= 1 ==> x * d >= d
    ensures x <= -1 ==> x * d <= -d
  {
  }

  /** useGameDerived. */
  function UseGameDerived(state: GameState): (d: Derived)
    ensures d.isDead <==> state.health <= 0
    ensures d.healthState == Dead <==> d.isDead
    ensures d.healthState == Critical <==> 0 < state.health < 30
    ensures d.healthState == Hungry <==> 30 <= state.health < 70
    ensures d.healthState == Thriving <==> state.health >= 70
    ensures d.needsOnboarding <==> !state.hasCompletedOnboarding || state.fishType.None?
    ensures Valid(state) ==> 0 <= d.accuracy <= 100
    ensures state.totalAnswered == 0 ==> d.accuracy == 0
    ensures d.accuracy == Accuracy(state.totalCorrect, state.totalAnswered)
  {
    Derived(
      healthState := GetHealthStateFromValue(state.health),
      isDead := IsFishDead(state.health),
      needsOnboarding := !state.hasCompletedOnboarding || state.fishType.None?,
      accuracy := Accuracy(state.totalCorrect, state.totalAnswered))
  }

  // useGameActions: each helper dispatches exactly one action carrying its arguments.

  function SelectFish(fishType: FishType): (a: GameAction)
    ensures a.SetFishType? && a.fish == fishType
  {
    SetFishType(fishType)
  }

  function FeedFishAction(questionId: string, correct: bool): (a: GameAction)
    ensures a.FeedFish? && a.questionId == questionId && a.correct == correct
  {
    FeedFish(questionId, correct)
  }

  function UpdateHealthAction(health: int): (a: GameAction)
    ensures a.UpdateHealth? && a.value == health
  {
    UpdateHealth(health)
  }

  function ReviveFishAction(): (a: GameAction)
    ensures a.ReviveFish?
  {
    ReviveFish
  }

  function ResetGameAction(): (a: GameAction)
    ensures a.ResetGame?
  {
    ResetGame
  }

  /** What the screens see after using the helpers. */
  lemma HelpersDriveTheGame(s: GameState, fish: FishType, questionId: string, correct: bool, now: int)
    requires Valid(s)
    ensures !UseGameDerived(Reduce(s, SelectFish(fish), now)).needsOnboarding
    ensures !UseGameDerived(Reduce(s, ReviveFishAction(), now)).isDead
    ensures UseGameDerived(Reduce(s, ResetGameAction(), now)).needsOnboarding
    ensures UseGameDerived(Reduce(s, ResetGameAction(), now)).healthState == Thriving
    ensures var r := Reduce(s, FeedFishAction(questionId, correct), now);
            r.answeredQuestionIds == s.answeredQuestionIds + [questionId] && (correct ==> !UseGameDerived(r).isDead)
  {
  }
}
