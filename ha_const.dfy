/**
 * Constants of the BrewOS Home Assistant integration: the domain, the MQTT
 * topic suffixes, the machine modes and the heating-strategy tables that
 * translate between the firmware's numeric code and the option name.
 */
module HaConst {
  import opened Wrappers

  const DOMAIN: string := "brewos"
  const DEFAULT_TOPIC_PREFIX: string := "brewos"

  const TOPIC_STATUS: string := "status"
  const TOPIC_POWER: string := "power"
  const TOPIC_STATISTICS: string := "statistics"
  const TOPIC_SHOT: string := "shot"
  const TOPIC_COMMAND: string := "command"
  const TOPIC_AVAILABILITY: string := "availability"

  const MODE_STANDBY: string := "standby"
  const MODE_ON: string := "on"
  const MODE_ECO: string := "eco"

  const STRATEGY_BREW_ONLY: string := "brew_only"
  const STRATEGY_SEQUENTIAL: string := "sequential"
  const STRATEGY_PARALLEL: string := "parallel"
  const STRATEGY_SMART_STAGGER: string := "smart_stagger"

  const HEATING_STRATEGIES: seq<string> :=
    [STRATEGY_BREW_ONLY, STRATEGY_SEQUENTIAL, STRATEGY_PARALLEL, STRATEGY_SMART_STAGGER]

  /** Firmware code to option name. */
  const STRATEGY_VALUE_MAP: map<int, string> :=
    map[0 := STRATEGY_BREW_ONLY, 1 := STRATEGY_SEQUENTIAL,
        2 := STRATEGY_PARALLEL, 3 := STRATEGY_SMART_STAGGER]

  /** Option name to firmware code. */
  const STRATEGY_NAME_MAP: map<string, int> :=
    map[STRATEGY_BREW_ONLY := 0, STRATEGY_SEQUENTIAL := 1,
        STRATEGY_PARALLEL := 2, STRATEGY_SMART_STAGGER := 3]

  /** `STRATEGY_VALUE_MAP.get(code, default)` */
  function StrategyName(code: int, default: string): (r: string)
    ensures 0 <= code < 4 ==> r == HEATING_STRATEGIES[code]
    ensures !(0 <= code < 4) ==> r == default
  {
    if code in STRATEGY_VALUE_MAP then STRATEGY_VALUE_MAP[code] else default
  }

  /** `STRATEGY_NAME_MAP.get(name, default)` */
  function StrategyCode(name: string, default: int): (r: int)
    ensures name in HEATING_STRATEGIES ==> 0 <= r < 4 && HEATING_STRATEGIES[r] == name
    ensures name !in HEATING_STRATEGIES ==> r == default
  {
    if name in STRATEGY_NAME_MAP then STRATEGY_NAME_MAP[name] else default
  }

  /** The two strategy tables are inverse bijections between 0..3 and the four names. */
  lemma StrategyMapsInverse()
    ensures STRATEGY_VALUE_MAP.Keys == {0, 1, 2, 3}
    ensures forall n :: n in STRATEGY_NAME_MAP <==> n in HEATING_STRATEGIES
    ensures forall c :: c in STRATEGY_VALUE_MAP ==>
      STRATEGY_VALUE_MAP[c] in STRATEGY_NAME_MAP && STRATEGY_NAME_MAP[STRATEGY_VALUE_MAP[c]] == c
    ensures forall n :: n in STRATEGY_NAME_MAP ==>
      STRATEGY_NAME_MAP[n] in STRATEGY_VALUE_MAP && STRATEGY_VALUE_MAP[STRATEGY_NAME_MAP[n]] == n
  {
  }

  /** Both tables are injective and have exactly four entries. */
  lemma StrategyMapsInjective()
    ensures |STRATEGY_VALUE_MAP| == 4 && |STRATEGY_NAME_MAP| == 4
    ensures forall a, b :: a in STRATEGY_VALUE_MAP && b in STRATEGY_VALUE_MAP && a != b ==>
      STRATEGY_VALUE_MAP[a] != STRATEGY_VALUE_MAP[b]
    ensures forall a, b :: a in STRATEGY_NAME_MAP && b in STRATEGY_NAME_MAP && a != b ==>
      STRATEGY_NAME_MAP[a] != STRATEGY_NAME_MAP[b]
  {
    assert STRATEGY_VALUE_MAP.Keys == {0, 1, 2, 3};
    assert STRATEGY_NAME_MAP.Keys == {STRATEGY_BREW_ONLY, STRATEGY_SEQUENTIAL, STRATEGY_PARALLEL, STRATEGY_SMART_STAGGER};
  }

  /** The option list is indexed by the firmware code. */
  lemma StrategiesIndexedByCode()
    ensures |HEATING_STRATEGIES| == 4
    ensures forall i :: 0 <= i < 4 ==> i in STRATEGY_VALUE_MAP && HEATING_STRATEGIES[i] == STRATEGY_VALUE_MAP[i]
  {
  }
}
