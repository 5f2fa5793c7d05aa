/**
 * The health-bar colour (getHealthColor in fishbrain/src/constants/theme.ts).
 */
module Theme {
  import opened Types
  import Health

  // THEME health colours
  const PRIMARY: string := "#4ecdc4"
  const WARNING: string := "#ffd93d"
  const DANGER: string := "#ff6b6b"

  /** Teal from 70 up, yellow from 30 up, coral below. */
  function GetHealthColor(health: int): (c: string)
    ensures c == PRIMARY <==> health >= 70
    ensures c == WARNING <==> 30 <= health < 70
    ensures c == DANGER <==> health < 30
  {
    if health >= 70 then PRIMARY
    else if health >= 30 then WARNING
    else DANGER
  }

  /**
   * For a live fish the colour follows the health state: thriving is primary,
   * hungry is warning, critical is danger; a dead fish shows danger too.
   */
  lemma HealthColorTracksState(health: int)
    ensures health > 0 ==> (GetHealthColor(health) == PRIMARY <==> Health.GetHealthStateFromValue(health) == Thriving)
    ensures health > 0 ==> (GetHealthColor(health) == WARNING <==> Health.GetHealthStateFromValue(health) == Hungry)
    ensures health > 0 ==> (GetHealthColor(health) == DANGER <==> Health.GetHealthStateFromValue(health) == Critical)
    ensures health <= 0 ==> GetHealthColor(health) == DANGER
  {
  }
}
