/**
 * Game mechanics constants and the two one-expression health formulas that
 * live beside them (fishbrain/src/constants/game.ts).
 */
module GameConstants {

  // HEALTH
  const HEALTH_MAX: int := 100
  const HEALTH_INITIAL: int := 100
  const HEALTH_REVIVAL: int := 50
  const CORRECT_ANSWER_BONUS: int := 10

  // DECAY
  /** Health points lost per whole decay period. */
  const DECAY_RATE: int := 5
  /** Four hours, in milliseconds. */
  const DECAY_PERIOD_MS: int := 4 * 60 * 60 * 1000
  /** Foreground polling interval of the decay scheduler, in milliseconds. */
  const DECAY_CHECK_INTERVAL_MS: int := 60 * 1000

  /**
   * Health after the whole decay periods between `lastFeedTime` and
   * `currentTime`, never below zero. Dafny's `/` with a positive divisor
   * floors, as `Math.floor` of the quotient does, also for negative elapsed time.
   */
  function CalculateHealthDecay(lastHealth: int, lastFeedTime: int, currentTime: int): (r: int)
    ensures r >= 0
    ensures currentTime >= lastFeedTime && lastHealth >= 0 ==> r <= lastHealth
    ensures r == 0 || r == lastHealth - DECAY_RATE * ((currentTime - lastFeedTime) / DECAY_PERIOD_MS)
  {
    var elapsedMs := currentTime - lastFeedTime;
    var decayPeriods := elapsedMs / DECAY_PERIOD_MS;
    var totalDecay := decayPeriods * DECAY_RATE;
    if 0 >= lastHealth - totalDecay then 0 else lastHealth - totalDecay
  }

  /** Health after a correct answer: the bonus is added and the result capped at the maximum. */
  function CalculateHealthGain(currentHealth: int): (r: int)
    ensures r <= HEALTH_MAX
    ensures currentHealth <= HEALTH_MAX ==> r >= currentHealth
    ensures currentHealth <= HEALTH_MAX - CORRECT_ANSWER_BONUS ==> r == currentHealth + CORRECT_ANSWER_BONUS
    ensures currentHealth >= HEALTH_MAX - CORRECT_ANSWER_BONUS ==> r == HEALTH_MAX
  {
    if HEALTH_MAX <= currentHealth + CORRECT_ANSWER_BONUS then HEALTH_MAX
    else currentHealth + CORRECT_ANSWER_BONUS
  }

  /** Each whole elapsed period removes exactly DECAY_RATE points, and a partial period removes none. */
  lemma {:induction false} CalculateHealthDecayPerPeriod(lastHealth: int, lastFeedTime: int, periods: nat, partial: int)
    requires 0 <= partial < DECAY_PERIOD_MS
    ensures var r := CalculateHealthDecay(lastHealth, lastFeedTime, lastFeedTime + periods * DECAY_PERIOD_MS + partial);
            r == if lastHealth - DECAY_RATE * periods <= 0 then 0 else lastHealth - DECAY_RATE * periods
  {
    WholePeriods(periods, partial);
  }

  /** The number of whole periods in `periods` periods plus a partial one. */
  lemma WholePeriods(periods: int, partial: int)
    requires 0 <= partial < DECAY_PERIOD_MS
    ensures (periods * DECAY_PERIOD_MS + partial) / DECAY_PERIOD_MS == periods
  {
    var q := (periods * DECAY_PERIOD_MS + partial) / DECAY_PERIOD_MS;
    var m := (periods * DECAY_PERIOD_MS + partial) % DECAY_PERIOD_MS;
    assert q * DECAY_PERIOD_MS + m == periods * DECAY_PERIOD_MS + partial;
    assert (q - periods) * DECAY_PERIOD_MS == partial - m;
  }

  /** More elapsed time never yields more health. */
  lemma {:induction false} CalculateHealthDecayNonIncreasing(lastHealth: int, lastFeedTime: int, t1: int, t2: int)
    requires t1 <= t2
    ensures CalculateHealthDecay(lastHealth, lastFeedTime, t2) <= CalculateHealthDecay(lastHealth, lastFeedTime, t1)
  {
    FloorMonotone(t1 - lastFeedTime, t2 - lastFeedTime);
  }

  /** Floor division by the decay period is monotone. */
  lemma FloorMonotone(a: int, b: int)
    requires a <= b
    ensures a / DECAY_PERIOD_MS <= b / DECAY_PERIOD_MS
  {
    var qa, qb := a / DECAY_PERIOD_MS, b / DECAY_PERIOD_MS;
    assert qa * DECAY_PERIOD_MS <= a;
    assert b < qb * DECAY_PERIOD_MS + DECAY_PERIOD_MS;
  }
}
