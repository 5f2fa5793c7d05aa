/**
 * The decisions of the decay scheduler (fishbrain/src/hooks/useHealthDecay.ts):
 * when a recalculation runs and what it dispatches. The interval timer and the
 * app-state subscription only decide WHEN these run; `now` is the clock reading.
 */
module HealthDecay {
  import opened Types
  import opened GameConstants
  import opened Health
  import opened GameReducer

  /**
   * recalculateHealth: for a live fish, the decayed health is dispatched as
   * UPDATE_HEALTH when it differs from the stored health; otherwise nothing.
   */
  function RecalculateHealth(state: GameState, now: int): (dispatch: Option<GameAction>)
    ensures state.health <= 0 ==> dispatch == None
    ensures dispatch.Some? <==> state.health > 0 && GetCurrentHealth(state.health, state.lastFeedTime, now) != state.health
    ensures dispatch.Some? ==> dispatch.value == UpdateHealth(GetCurrentHealth(state.health, state.lastFeedTime, now))
    ensures dispatch.Some? && now >= state.lastFeedTime ==> 0 <= dispatch.value.value < state.health
  {
    if state.health > 0 then
      var currentHealth := GetCurrentHealth(state.health, state.lastFeedTime, now);
      if currentHealth != state.health then Some(UpdateHealth(currentHealth)) else None
    else None
  }

  /** The state after one recalculation and the dispatch it makes, if any. */
  function Tick(state: GameState, now: int): (r: GameState)
    ensures Valid(state) ==> Valid(r)
    ensures state.health <= 0 ==> r == state
    ensures r.(health := state.health) == state
    ensures now >= state.lastFeedTime && Valid(state) ==> r.health <= state.health
    ensures Valid(state) && state.health > 0 ==> r.health == ClampHealth(GetCurrentHealth(state.health, state.lastFeedTime, now))
  {
    match RecalculateHealth(state, now)
    case None => state
    case Some(action) => Reduce(state, action, now)
  }

  /** The guard at the top of the periodic effect: loading is over and onboarding is done. */
  function DecayTimerArmed(isLoading: bool, state: GameState): (armed: bool)
    ensures armed ==> state.hasCompletedOnboarding
    ensures !isLoading && state.hasCompletedOnboarding ==> armed
    ensures armed ==> !isLoading
  {
    !(isLoading || !state.hasCompletedOnboarding)
  }

  /** What the periodic effect (its first run and each interval tick) dispatches. */
  function PeriodicRecalculation(isLoading: bool, state: GameState, now: int): (dispatch: Option<GameAction>)
    ensures !DecayTimerArmed(isLoading, state) ==> dispatch == None
    ensures DecayTimerArmed(isLoading, state) ==> dispatch == RecalculateHealth(state, now)
  {
    if DecayTimerArmed(isLoading, state) then RecalculateHealth(state, now) else None
  }

  /** React Native's AppStateStatus values. */
  datatype AppStateStatus = Active | Background | Inactive | Unknown | Extension {
    function Name(): string {
      match this
      case Active => "active"
      case Background => "background"
      case Inactive => "inactive"
      case Unknown => "unknown"
      case Extension => "extension"
    }
  }

  /** `pattern` occurs in `s` as a contiguous run of characters. */
  predicate ContainsText(s: string, pattern: string)
    decreases |s|
  {
    pattern <= s || (s != [] && ContainsText(s[1..], pattern))
  }

  /** `status.match(/inactive|background/)`. */
  predicate MatchesInactiveOrBackground(status: string) {
    ContainsText(status, "inactive") || ContainsText(status, "background")
  }

  /** The foreground-transition test of the app-state listener. */
  predicate ComesToForeground(previous: AppStateStatus, next: AppStateStatus) {
    MatchesInactiveOrBackground(previous.Name()) && next == Active
  }

  /** The regular expression singles out exactly the inactive and background statuses. */
  lemma ComesToForegroundExactly(previous: AppStateStatus, next: AppStateStatus)
    ensures ComesToForeground(previous, next) <==> (previous == Inactive || previous == Background) && next == Active
  {
    match previous
    case Active =>
      NotContained("active", "inactive");
      NotContained("active", "background");
    case Background =>
      assert "background" <= previous.Name();
    case Inactive =>
      assert "inactive" <= previous.Name();
    case Unknown =>
      NotContained("unknown", "inactive");
      NotContained("unknown", "background");
    case Extension =>
      NotContained("extension", "inactive");
      NotContained("extension", "background");
  }

  /** A text in which the pattern's first letter starts no window of the pattern's length does not contain it. */
  lemma {:induction false} NotContained(s: string, pattern: string)
    requires |pattern| > 0
    requires forall i :: 0 <= i <= |s| - |pattern| ==> s[i] != pattern[0]
    ensures !ContainsText(s, pattern)
    decreases |s|
  {
    if |s| >= |pattern| {
      assert s[0] != pattern[0];
      assert !(pattern <= s);
    }
    if s != [] {
      forall i | 0 <= i <= |s[1..]| - |pattern|
        ensures s[1..][i] != pattern[0]
      {
        assert s[1..][i] == s[i + 1];
      }
      NotContained(s[1..], pattern);
    }
  }

  /** The app-state listener with its `appStateRef`. */
  class ForegroundWatcher {
    var appState: AppStateStatus

    constructor (initial: AppStateStatus)
      ensures appState == initial
    {
      appState := initial;
    }

    /**
     * The 'change' handler: recalculate when coming back to the foreground,
     * then remember the new status whatever it is.
     */
    method OnChange(nextAppState: AppStateStatus, state: GameState, now: int) returns (dispatch: Option<GameAction>)
      modifies this
      ensures appState == nextAppState
      ensures ComesToForeground(old(appState), nextAppState) ==> dispatch == RecalculateHealth(state, now)
      ensures !ComesToForeground(old(appState), nextAppState) ==> dispatch == None
    {
      dispatch := None;
      if MatchesInactiveOrBackground(appState.Name()) && nextAppState == Active {
        dispatch := RecalculateHealth(state, now);
      }
      appState := nextAppState;
    }
  }

  // ---------------------------------------------------------------------------
  // Finding: recalculations compound, because UPDATE_HEALTH keeps lastFeedTime

  /** A goldfish fed at time 0 with full health. */
  function FedGoldfish(): GameState {
    GameState(Some(Goldfish), HEALTH_MAX, 0, 0, 0, 0, [], true)
  }

  /**
   * As written: two recalculations at the same instant, one period after
   * feeding, take two decay steps instead of one; the same happens when a
   * hydrated record is saved and hydrated again.
   */
  lemma TicksCompound()
    ensures Tick(FedGoldfish(), DECAY_PERIOD_MS).health == HEALTH_MAX - DECAY_RATE
    ensures Tick(Tick(FedGoldfish(), DECAY_PERIOD_MS), DECAY_PERIOD_MS).health == HEALTH_MAX - 2 * DECAY_RATE
    ensures Hydrate(Hydrate(FedGoldfish(), DECAY_PERIOD_MS), DECAY_PERIOD_MS).health == HEALTH_MAX - 2 * DECAY_RATE
  {
    var s1 := Tick(FedGoldfish(), DECAY_PERIOD_MS);
    assert s1.lastFeedTime == 0;
  }

  /**
   * Corrected recalculation: the decay is settled by also moving lastFeedTime
   * forward by the whole periods it consumed, so a period is charged once.
   */
  function SettleDecay(state: GameState, now: int): (r: GameState)
    ensures state.lastFeedTime <= r.lastFeedTime
    ensures now >= state.lastFeedTime ==> r.lastFeedTime <= now
    ensures state.health >= 0 ==> r.health >= 0
    ensures state.health <= 0 ==> r == state
    ensures now >= state.lastFeedTime && state.health > 0 ==> r.health == GetCurrentHealth(state.health, state.lastFeedTime, now)
    ensures r.(health := state.health, lastFeedTime := state.lastFeedTime) == state
  {
    var periods := (now - state.lastFeedTime) / DECAY_PERIOD_MS;
    if state.health <= 0 || periods <= 0 then state
    else
      state.(
        health := AtLeastZero(state.health - periods * DECAY_RATE),
        lastFeedTime := state.lastFeedTime + periods * DECAY_PERIOD_MS)
  }

  /**
   * Settling at `t1` and then at a later `t2` leaves the same health as
   * settling once at `t2`: the result no longer depends on how often the
   * scheduler runs.
   */
  lemma {:induction false} SettleDecayPathIndependent(state: GameState, t1: int, t2: int)
    requires state.lastFeedTime <= t1 <= t2
    ensures SettleDecay(SettleDecay(state, t1), t2).health == SettleDecay(state, t2).health
  {
    var base := state.lastFeedTime;
    var k1 := (t1 - base) / DECAY_PERIOD_MS;
    var k := (t2 - base) / DECAY_PERIOD_MS;
    FloorMonotone(t1 - base, t2 - base);
    if state.health > 0 && k1 > 0 {
      var s1 := SettleDecay(state, t1);
      assert s1.lastFeedTime == base + k1 * DECAY_PERIOD_MS;
      var r := (t2 - base) % DECAY_PERIOD_MS;
      assert t2 - s1.lastFeedTime == (k - k1) * DECAY_PERIOD_MS + r;
      WholePeriods(k - k1, r);
      assert (t2 - s1.lastFeedTime) / DECAY_PERIOD_MS == k - k1;
    }
  }

  /** In particular a second settlement at the same instant changes nothing more. */
  lemma SettleDecayIdempotent(state: GameState, now: int)
    requires state.lastFeedTime <= now
    ensures SettleDecay(SettleDecay(state, now), now).health == SettleDecay(state, now).health
  {
    SettleDecayPathIndependent(state, now, now);
  }
}
