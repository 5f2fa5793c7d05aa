/**
 * Pure health arithmetic of the game (fishbrain/src/utils/health.ts).
 * Every reading of the clock becomes the parameter `now`.
 */
module Health {
  import opened Types
  import opened GameConstants
  import Fish
  import opened NumberText

  /** `Math.max(0, x)`. */
  function AtLeastZero(x: int): (r: int)
    ensures r >= 0 && r >= x
    ensures r == x || r == 0
  {
    if x <= 0 then 0 else x
  }

  /**
   * Health after decay: DECAY_RATE points per whole DECAY_PERIOD_MS elapsed
   * since `lastFeedTime`, clamped at zero. Elapsed time is not guarded, so a
   * `now` before `lastFeedTime` yields a negative period count.
   */
  function GetCurrentHealth(lastKnownHealth: int, lastFeedTime: int, now: int): (r: int)
    ensures r >= 0
    ensures now >= lastFeedTime && lastKnownHealth >= 0 ==> r <= lastKnownHealth
  {
    var elapsedMs := now - lastFeedTime;
    var decayPeriods := elapsedMs / DECAY_PERIOD_MS;
    var totalDecay := decayPeriods * DECAY_RATE;
    AtLeastZero(lastKnownHealth - totalDecay)
  }

  /** Health after a correct answer: plus the bonus, capped at HEALTH_MAX. */
  function ApplyCorrectAnswerBonus(currentHealth: int): (r: int)
    ensures r <= HEALTH_MAX
    ensures currentHealth <= HEALTH_MAX ==> r >= currentHealth
    ensures currentHealth <= HEALTH_MAX - CORRECT_ANSWER_BONUS ==> r == currentHealth + CORRECT_ANSWER_BONUS
    ensures currentHealth >= HEALTH_MAX - CORRECT_ANSWER_BONUS ==> r == HEALTH_MAX
  {
    if HEALTH_MAX <= currentHealth + CORRECT_ANSWER_BONUS then HEALTH_MAX
    else currentHealth + CORRECT_ANSWER_BONUS
  }

  /** Health after a revival: alive, hungry, and within the health range. */
  function GetRevivalHealth(): (r: int)
    ensures r == 50
    ensures 0 < r <= HEALTH_MAX
    ensures GetHealthStateFromValue(r) == Hungry
  {
    HEALTH_REVIVAL
  }

  /** The fish is dead exactly when its health state is dead. */
  function IsFishDead(health: int): (r: bool)
    ensures r <==> health <= 0
    ensures r <==> GetHealthStateFromValue(health) == Dead
  {
    health <= 0
  }

  /**
   * The health state of a health value, using the thresholds of
   * fishbrain/src/constants/fish.ts (second copy of Fish.GetHealthState).
   */
  function GetHealthStateFromValue(health: int): (r: HealthState)
    ensures r == Dead <==> health <= 0
    ensures r == Critical <==> 0 < health < 30
    ensures r == Hungry <==> 30 <= health < 70
    ensures r == Thriving <==> health >= 70
  {
    if health <= 0 then Dead
    else if health < Fish.HUNGRY_THRESHOLD then Critical
    else if health < Fish.THRIVING_THRESHOLD then Hungry
    else Thriving
  }

  /** JavaScript's `%`: the remainder truncates toward zero and takes the sign of the dividend. */
  function JsRem(a: int, b: int): (r: int)
    requires b > 0
    ensures a >= 0 ==> 0 <= r < b
    ensures a < 0 ==> -b < r <= 0
    ensures a >= 0 ==> r == a % b
  {
    if a >= 0 then a % b else -((-a) % b)
  }

  /** Negating the dividend negates JavaScript's remainder (Dafny's `%` has no such symmetry). */
  lemma JsRemSignSymmetric(a: int, b: int)
    requires b > 0
    ensures JsRem(-a, b) == -JsRem(a, b)
  {
  }

  /** Milliseconds until the next decay period begins. */
  function GetTimeUntilNextDecay(lastFeedTime: int, now: int): (r: int)
    ensures now >= lastFeedTime ==> 0 < r <= DECAY_PERIOD_MS
    ensures now >= lastFeedTime ==> (now - lastFeedTime + r) % DECAY_PERIOD_MS == 0
    ensures now < lastFeedTime ==> DECAY_PERIOD_MS <= r < 2 * DECAY_PERIOD_MS
  {
    var elapsedMs := now - lastFeedTime;
    var timeSinceLastPeriod := JsRem(elapsedMs, DECAY_PERIOD_MS);
    DECAY_PERIOD_MS - timeSinceLastPeriod
  }

  const MS_PER_HOUR: int := 60 * 60 * 1000
  const MS_PER_MINUTE: int := 60 * 1000

  /** The hours and minutes that formatTimeRemaining shows for `ms`. */
  function TimeParts(ms: int): (hm: (int, int))
    ensures ms >= 0 ==> hm.0 >= 0 && 0 <= hm.1 <= 59
    ensures ms >= 0 ==> hm.0 * MS_PER_HOUR + hm.1 * MS_PER_MINUTE <= ms < hm.0 * MS_PER_HOUR + (hm.1 + 1) * MS_PER_MINUTE
  {
    var hours := ms / MS_PER_HOUR;
    var minutes := JsRem(ms, MS_PER_HOUR) / MS_PER_MINUTE;
    if ms >= 0 then HourMinuteSplit(ms); (hours, minutes) else (hours, minutes)
  }

  lemma HourMinuteSplit(ms: int)
    requires ms >= 0
    ensures var hours, minutes := ms / MS_PER_HOUR, (ms % MS_PER_HOUR) / MS_PER_MINUTE;
            hours * MS_PER_HOUR + minutes * MS_PER_MINUTE <= ms < hours * MS_PER_HOUR + (minutes + 1) * MS_PER_MINUTE
  {
    var hours, rem := ms / MS_PER_HOUR, ms % MS_PER_HOUR;
    var minutes := rem / MS_PER_MINUTE;
    assert ms == hours * MS_PER_HOUR + rem;
    assert rem == minutes * MS_PER_MINUTE + rem % MS_PER_MINUTE;
  }

  /** "Xh Ym" when there is at least one whole hour, otherwise "Ym". */
  function FormatTimeRemaining(ms: int): (s: string)
    ensures |s| >= 2 && s[|s| - 1] == 'm'
    ensures ms >= 0 ==> ('h' in s <==> TimeParts(ms).0 > 0)
    ensures ms >= 0 && TimeParts(ms).0 > 0 ==> NatText(TimeParts(ms).0) + "h " <= s
    ensures ms >= 0 && TimeParts(ms).0 <= 0 ==> AllDigits(s[..|s| - 1])
    ensures ms >= 0 ==>
              var tail := if TimeParts(ms).0 > 0 then s[|NatText(TimeParts(ms).0) + "h "|..|s| - 1] else s[..|s| - 1];
              AllDigits(tail) && DigitsValue(tail) == TimeParts(ms).1
    ensures ms >= 0 ==> s == (if TimeParts(ms).0 > 0 then NatText(TimeParts(ms).0) + "h " else "") + NatText(TimeParts(ms).1) + "m"
  {
    var (hours, minutes) := TimeParts(ms);
    var s := if hours > 0 then IntText(hours) + "h " + IntText(minutes) + "m" else IntText(minutes) + "m";
    if ms >= 0 then
      NatTextRoundTrip(minutes);
      assert hours > 0 ==> s[|NatText(hours) + "h "|..|s| - 1] == NatText(minutes);
      assert hours <= 0 ==> s[..|s| - 1] == NatText(minutes);
      s
    else s
  }

  // ---------------------------------------------------------------------------
  // Decay as a step function of the clock

  /** The two decay formulas (health.ts and game.ts) compute the same value. */
  lemma DecayCopiesAgree(h: int, lastFeedTime: int, now: int)
    ensures GetCurrentHealth(h, lastFeedTime, now) == CalculateHealthDecay(h, lastFeedTime, now)
  {
  }

  /** The two bonus formulas (health.ts and game.ts) compute the same value. */
  lemma BonusCopiesAgree(h: int)
    ensures ApplyCorrectAnswerBonus(h) == CalculateHealthGain(h)
    ensures CalculateHealthGain(HEALTH_MAX) == HEALTH_MAX
  {
  }

  /** The two threshold classifications compute the same state for every health value. */
  lemma HealthStateCopiesAgree(h: int)
    ensures GetHealthStateFromValue(h) == Fish.GetHealthState(h)
  {
  }

  /** After `periods` whole periods and part of another, exactly DECAY_RATE * periods points are gone. */
  lemma {:induction false} DecayAfterPeriods(h: int, lastFeedTime: int, periods: int, partial: int)
    requires 0 <= partial < DECAY_PERIOD_MS
    ensures GetCurrentHealth(h, lastFeedTime, lastFeedTime + periods * DECAY_PERIOD_MS + partial)
         == AtLeastZero(h - DECAY_RATE * periods)
  {
    WholePeriods(periods, partial);
  }

  /** Within one period the health does not change. */
  lemma {:induction false} DecayConstantWithinPeriod(h: int, lastFeedTime: int, periods: int, p1: int, p2: int)
    requires 0 <= p1 < DECAY_PERIOD_MS && 0 <= p2 < DECAY_PERIOD_MS
    ensures GetCurrentHealth(h, lastFeedTime, lastFeedTime + periods * DECAY_PERIOD_MS + p1)
         == GetCurrentHealth(h, lastFeedTime, lastFeedTime + periods * DECAY_PERIOD_MS + p2)
  {
    DecayAfterPeriods(h, lastFeedTime, periods, p1);
    DecayAfterPeriods(h, lastFeedTime, periods, p2);
  }

  /** One more period removes exactly DECAY_RATE more points, clamped at zero. */
  lemma {:induction false} DecayAcrossBoundary(h: int, lastFeedTime: int, now: int)
    ensures GetCurrentHealth(h, lastFeedTime, now + DECAY_PERIOD_MS)
         == AtLeastZero(GetCurrentHealth(h, lastFeedTime, now) - DECAY_RATE)
  {
    var elapsed := now - lastFeedTime;
    var k, p := elapsed / DECAY_PERIOD_MS, elapsed % DECAY_PERIOD_MS;
    assert now == lastFeedTime + k * DECAY_PERIOD_MS + p;
    assert now + DECAY_PERIOD_MS == lastFeedTime + (k + 1) * DECAY_PERIOD_MS + p;
    DecayAfterPeriods(h, lastFeedTime, k, p);
    DecayAfterPeriods(h, lastFeedTime, k + 1, p);
  }

  /** Health never rises as the clock advances. */
  lemma {:induction false} DecayNonIncreasing(h: int, lastFeedTime: int, t1: int, t2: int)
    requires t1 <= t2
    ensures GetCurrentHealth(h, lastFeedTime, t2) <= GetCurrentHealth(h, lastFeedTime, t1)
  {
    FloorMonotone(t1 - lastFeedTime, t2 - lastFeedTime);
  }

  /**
   * getTimeUntilNextDecay is the waiting time until the health next drops:
   * it stays put strictly before `now + r` and loses one step at `now + r`.
   */
  lemma {:induction false} NextDecayIsNextDrop(h: int, lastFeedTime: int, now: int, wait: int)
    requires now >= lastFeedTime
    requires 0 <= wait < GetTimeUntilNextDecay(lastFeedTime, now)
    ensures GetCurrentHealth(h, lastFeedTime, now + wait) == GetCurrentHealth(h, lastFeedTime, now)
    ensures var next := now + GetTimeUntilNextDecay(lastFeedTime, now);
            GetCurrentHealth(h, lastFeedTime, next) == AtLeastZero(GetCurrentHealth(h, lastFeedTime, now) - DECAY_RATE)
  {
    var elapsed := now - lastFeedTime;
    var k, p := elapsed / DECAY_PERIOD_MS, elapsed % DECAY_PERIOD_MS;
    var r := GetTimeUntilNextDecay(lastFeedTime, now);
    assert r == DECAY_PERIOD_MS - p;
    assert now == lastFeedTime + k * DECAY_PERIOD_MS + p;
    assert now + wait == lastFeedTime + k * DECAY_PERIOD_MS + (p + wait);
    assert now + r == lastFeedTime + (k + 1) * DECAY_PERIOD_MS + 0;
    DecayAfterPeriods(h, lastFeedTime, k, p);
    DecayAfterPeriods(h, lastFeedTime, k, p + wait);
    DecayAfterPeriods(h, lastFeedTime, k + 1, 0);
  }

  // ---------------------------------------------------------------------------
  // Finding: a clock that reads earlier than lastFeedTime adds health

  /** As written: one millisecond of clock skew counts as minus one period and adds five points, past the maximum. */
  lemma ClockSkewRaisesHealth()
    ensures GetCurrentHealth(HEALTH_MAX, 1, 0) == HEALTH_MAX + DECAY_RATE
  {
    assert (0 - 1) / DECAY_PERIOD_MS == -1;
  }

  /** Corrected decay: a negative period count contributes no decay. */
  function GetCurrentHealthGuarded(lastKnownHealth: int, lastFeedTime: int, now: int): (r: int)
    ensures 0 <= r <= AtLeastZero(lastKnownHealth)
    ensures now >= lastFeedTime ==> r == GetCurrentHealth(lastKnownHealth, lastFeedTime, now)
    ensures now < lastFeedTime ==> r == AtLeastZero(lastKnownHealth)
  {
    var decayPeriods := (now - lastFeedTime) / DECAY_PERIOD_MS;
    var periods := if decayPeriods < 0 then 0 else decayPeriods;
    AtLeastZero(lastKnownHealth - periods * DECAY_RATE)
  }
}
