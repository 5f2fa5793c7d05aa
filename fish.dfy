/**
 * Fish configuration tables and the health-state thresholds
 * (fishbrain/src/constants/fish.ts).
 */
module Fish {
  import opened Types

  /** Display data of one fish variant. */
  datatype FishInfo = FishInfo(name: string, color: string, emoji: string)

  /** FISH_CONFIG: a record keyed by fish type. */
  const FISH_CONFIG: map<FishType, FishInfo> := map[
    Goldfish := FishInfo("Goldie", "#FFD700", "\U{1F420}"),
    Betta := FishInfo("Beta", "#9B59B6", "\U{1F41F}"),
    Clownfish := FishInfo("Nemo", "#FF6B35", "\U{1F421}")
  ]

  // HEALTH_THRESHOLDS
  const THRIVING_THRESHOLD: int := 70
  const HUNGRY_THRESHOLD: int := 30
  const CRITICAL_THRESHOLD: int := 0

  /** The choices offered during onboarding, in display order. */
  const FISH_OPTIONS: seq<FishType> := [Goldfish, Betta, Clownfish]

  /**
   * The health state of a health value: dead at or below zero, then the two
   * thresholds split the living range into critical, hungry and thriving.
   */
  function GetHealthState(health: int): (r: HealthState)
    ensures r == Dead <==> health <= 0
    ensures r == Critical <==> 0 < health < HUNGRY_THRESHOLD
    ensures r == Hungry <==> HUNGRY_THRESHOLD <= health < THRIVING_THRESHOLD
    ensures r == Thriving <==> health >= THRIVING_THRESHOLD
  {
    if health <= 0 then Dead
    else if health < HUNGRY_THRESHOLD then Critical
    else if health < THRIVING_THRESHOLD then Hungry
    else Thriving
  }

  /** Higher health never yields a worse state. */
  lemma GetHealthStateMonotone(h1: int, h2: int)
    requires h1 <= h2
    ensures GetHealthState(h1).Rank() <= GetHealthState(h2).Rank()
  {
  }

  /** FISH_OPTIONS lists every fish type exactly once. */
  lemma {:induction false} FishOptionsListEachTypeOnce(f: FishType)
    ensures multiset(FISH_OPTIONS)[f] == 1
  {
    assert FISH_OPTIONS == [Goldfish] + [Betta] + [Clownfish];
    match f
    case Goldfish =>
    case Betta =>
    case Clownfish =>
  }

  /** FISH_CONFIG has an entry for every fish type, and no two types share a name. */
  lemma FishConfigCoversEveryType(f: FishType, g: FishType)
    ensures f in FISH_CONFIG
    ensures g in FISH_CONFIG && f != g ==> FISH_CONFIG[f].name != FISH_CONFIG[g].name
  {
  }
}
