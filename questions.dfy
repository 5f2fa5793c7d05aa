/**
 * Question selection (fishbrain/src/hooks/useQuestions.ts): the pool of
 * unanswered questions, the random draw with its exhaustion fallback, and the
 * current-question slot. `Math.random()` becomes the parameter `rand` in [0, 1).
 */
module Questions {
  import opened Types
  import GameReducer

  /** `a` can be obtained from `b` by deleting elements. */
  predicate IsSubsequence<T(==)>(a: seq<T>, b: seq<T>)
    decreases |b|
  {
    if a == [] then true
    else if b == [] then false
    else (a[0] == b[0] && IsSubsequence(a[1..], b[1..])) || IsSubsequence(a, b[1..])
  }

  /**
   * availableQuestions: the bank, in its own order, without the questions
   * whose id has been answered. Every kept question keeps all its occurrences.
   */
  function AvailableQuestions(bank: seq<Question>, answered: seq<string>): (r: seq<Question>)
    ensures IsSubsequence(r, bank)
    ensures forall q :: q in r <==> q in bank && q.id !in answered
    ensures forall q :: multiset(r)[q] == if q.id in answered then 0 else multiset(bank)[q]
    decreases |bank|
  {
    if bank == [] then []
    else
      var rest := AvailableQuestions(bank[1..], answered);
      assert bank == [bank[0]] + bank[1..];
      if bank[0].id in answered then rest else [bank[0]] + rest
  }

  /** hasQuestions: some question of the bank is still unanswered. */
  function HasQuestions(bank: seq<Question>, answered: seq<string>): (b: bool)
    ensures b <==> exists q :: q in bank && q.id !in answered
  {
    |AvailableQuestions(bank, answered)| > 0
  }

  /** `Math.floor(rand * n)`: an index into a list of length n. */
  function RandomIndex(rand: real, n: nat): (i: int)
    requires 0.0 <= rand < 1.0
    ensures n > 0 ==> 0 <= i < n
    ensures n == 0 ==> i == 0
  {
    assert rand * (n as real) <= 1.0 * (n as real);
    (rand * (n as real)).Floor
  }

  /** Index `i` of a list of length `n` is drawn by `rand = i / n`, so no entry is out of reach. */
  lemma {:induction false} EveryIndexReachable(i: nat, n: nat)
    requires i < n
    ensures 0.0 <= (i as real) / (n as real) < 1.0
    ensures RandomIndex((i as real) / (n as real), n) == i
  {
    var x := (i as real) / (n as real);
    assert x * (n as real) == i as real;
    var y := x - 1.0;
    assert y * (n as real) == (i as real) - (n as real) < 0.0;
  }

  /**
   * getRandomQuestion: a uniform draw from the available pool or, once every
   * question has been answered, from the whole bank. With an empty bank the
   * source indexes past the end and returns `undefined`, modelled as None.
   */
  function GetRandomQuestion(bank: seq<Question>, answered: seq<string>, rand: real): (r: Option<Question>)
    requires 0.0 <= rand < 1.0
    ensures r.None? <==> bank == []
    ensures HasQuestions(bank, answered) ==> r.Some? && r.value in AvailableQuestions(bank, answered)
    ensures HasQuestions(bank, answered) ==> r.Some? && r.value.id !in answered
    ensures r.Some? ==> r.value in bank
  {
    var available := AvailableQuestions(bank, answered);
    if |available| == 0 then
      var i := RandomIndex(rand, |bank|);
      if i < |bank| then Some(bank[i]) else None
    else
      Some(available[RandomIndex(rand, |available|)])
  }

  /** Every question the draw may yield is yielded for some random value. */
  lemma GetRandomQuestionReachesPool(bank: seq<Question>, answered: seq<string>, i: nat)
    requires i < |AvailableQuestions(bank, answered)|
    ensures var rand := (i as real) / (|AvailableQuestions(bank, answered)| as real);
            0.0 <= rand < 1.0 && GetRandomQuestion(bank, answered, rand) == Some(AvailableQuestions(bank, answered)[i])
  {
    EveryIndexReachable(i, |AvailableQuestions(bank, answered)|);
  }

  /** Once the pool is exhausted every question of the bank can come again. */
  lemma GetRandomQuestionFallbackReachesBank(bank: seq<Question>, answered: seq<string>, i: nat)
    requires !HasQuestions(bank, answered) && i < |bank|
    ensures var rand := (i as real) / (|bank| as real);
            0.0 <= rand < 1.0 && GetRandomQuestion(bank, answered, rand) == Some(bank[i])
  {
    EveryIndexReachable(i, |bank|);
  }

  /** answeredCount: for a valid game state it is the number of questions answered so far. */
  function AnsweredCount(state: GameState): (n: nat)
    ensures GameReducer.Valid(state) ==> n == state.totalAnswered
  {
    |state.answeredQuestionIds|
  }

  /** The state behind useQuestions: the bundled bank and the current-question slot. */
  class QuestionSelector {
    const bank: seq<Question>
    var currentQuestion: Option<Question>

    /** The slot starts empty. */
    constructor (bank: seq<Question>)
      ensures this.bank == bank && currentQuestion == None
    {
      this.bank := bank;
      currentQuestion := None;
    }

    /** totalQuestions: the size of the bank, which bounds the available pool. */
    function TotalQuestions(answered: seq<string>): (n: nat)
      ensures |AvailableQuestions(bank, answered)| <= n
      ensures n == |bank|
      ensures n == |AvailableQuestions(bank, [])|
    {
      SubsequenceNoLonger(AvailableQuestions(bank, answered), bank);
      NothingAnsweredKeepsBank(bank);
      |bank|
    }

    /** selectNewQuestion: draws a question, stores it in the slot and returns it. */
    method SelectNewQuestion(state: GameState, rand: real) returns (question: Option<Question>)
      requires 0.0 <= rand < 1.0
      modifies this
      ensures question == GetRandomQuestion(bank, state.answeredQuestionIds, rand)
      ensures currentQuestion == question
    {
      question := GetRandomQuestion(bank, state.answeredQuestionIds, rand);
      currentQuestion := question;
    }

    /** clearQuestion: empties the slot. */
    method ClearQuestion()
      modifies this
      ensures currentQuestion == None
    {
      currentQuestion := None;
    }

    /** checkAnswer: false with no current question, else whether the 0-based index is the correct one. */
    method CheckAnswer(optionIndex: int) returns (correct: bool)
      ensures currentQuestion.None? ==> !correct
      ensures currentQuestion.Some? ==> (correct <==> currentQuestion.value.correctAnswer == optionIndex)
    {
      if currentQuestion.None? {
        return false;
      }
      correct := currentQuestion.value.correctAnswer == optionIndex;
    }
  }

  /** A subsequence is never longer. */
  lemma {:induction false} SubsequenceNoLonger<T>(a: seq<T>, b: seq<T>)
    requires IsSubsequence(a, b)
    ensures |a| <= |b|
    decreases |b|
  {
    if a != [] {
      if a[0] == b[0] && IsSubsequence(a[1..], b[1..]) {
        SubsequenceNoLonger(a[1..], b[1..]);
      } else {
        SubsequenceNoLonger(a, b[1..]);
      }
    }
  }

  /** With nothing answered the pool is the whole bank. */
  lemma {:induction false} NothingAnsweredKeepsBank(bank: seq<Question>)
    ensures AvailableQuestions(bank, []) == bank
    decreases |bank|
  {
    if bank != [] {
      NothingAnsweredKeepsBank(bank[1..]);
      assert bank == [bank[0]] + bank[1..];
    }
  }
}
