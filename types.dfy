/**
 * The value types of the fish-health game: the fish variants, the four health
 * states, a trivia question, the persisted game record and the seven actions
 * the game reducer accepts.
 */
module Types {

  /** A value that may be absent (`null` in the game record, `undefined` from an empty bank). */
  datatype Option<+T> = None | Some(value: T)

  /** The three fish a player can adopt during onboarding. */
  datatype FishType = Goldfish | Betta | Clownfish

  /** How the fish is doing, worst first. */
  datatype HealthState = Dead | Critical | Hungry | Thriving {
    /** Position in the order dead < critical < hungry < thriving. */
    function Rank(): (r: nat)
      ensures r <= 3
      ensures r == 0 <==> this == Dead
      ensures r == 3 <==> this == Thriving
    {
      match this
      case Dead => 0
      case Critical => 1
      case Hungry => 2
      case Thriving => 3
    }
  }

  datatype Difficulty = Beginner | Intermediate | Advanced

  /** A trivia question of the bundled bank; `correctAnswer` is a 0-based option index. */
  datatype Question = Question(
    id: string,
    category: string,
    question: string,
    options: seq<string>,
    correctAnswer: int,
    difficulty: Difficulty,
    explanation: string)

  /**
   * The single game record. Numbers are unbounded integers; the bounds the
   * game relies on are stated by GameReducer.Valid, not by the types, because
   * LOAD_STATE may carry any record.
   */
  datatype GameState = GameState(
    fishType: Option<FishType>,
    health: int,
    lastFeedTime: int,
    streak: int,
    totalCorrect: int,
    totalAnswered: int,
    answeredQuestionIds: seq<string>,
    hasCompletedOnboarding: bool)

  /** The tagged union of actions the reducer switches on. */
  datatype GameAction =
    | SetFishType(fish: FishType)
    | UpdateHealth(value: int)
    | FeedFish(questionId: string, correct: bool)
    | ResetStreak
    | ReviveFish
    | LoadState(payload: GameState)
    | ResetGame
}
