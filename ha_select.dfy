/**
 * The select entities: machine mode and heating strategy. The strategy
 * select shows the name for the firmware's numeric code and sends the code
 * for a chosen name.
 */
module HaSelect {
  import opened Wrappers
  import opened PyValues
  import opened HaConst
  import opened Coordinator

  datatype SelectDescription = SelectDescription(
    key: string,
    options: seq<string>,
    command: string,
    commandParam: string,
    isStrategy: bool)

  const MODE_SELECT: SelectDescription :=
    SelectDescription("mode", [MODE_STANDBY, MODE_ON, MODE_ECO], "set_mode", "mode", false)
  const STRATEGY_SELECT: SelectDescription :=
    SelectDescription("heating_strategy", HEATING_STRATEGIES, "set_heating_strategy", "strategy", true)
  const SELECT_DESCRIPTIONS: seq<SelectDescription> := [MODE_SELECT, STRATEGY_SELECT]

  /** `isinstance(v, int)`: a bool is an int in Python. */
  predicate IsPyInt(v: Value) {
    v.VInt? || v.VBool?
  }

  function PyIntValue(v: Value): int
    requires IsPyInt(v)
  {
    if v.VInt? then v.i else if v.b then 1 else 0
  }

  /** `current_option`: the value shown for the entity, read from the coordinator's data. */
  function CurrentOption(desc: SelectDescription, data: map<string, Value>): (r: Value)
    ensures var value := Get(data, desc.key, VNone);
      desc.isStrategy && IsPyInt(value) ==>
        r.VStr? && r.s in HEATING_STRATEGIES &&
        (0 <= PyIntValue(value) < 4 ==> r.s == HEATING_STRATEGIES[PyIntValue(value)]) &&
        (!(0 <= PyIntValue(value) < 4) ==> r.s == STRATEGY_SEQUENTIAL)
    ensures var value := Get(data, desc.key, VNone);
      !(desc.isStrategy && IsPyInt(value)) ==> (Truthy(value) ==> r == value) && (!Truthy(value) ==> r == VStr(MODE_STANDBY))
  {
    var value := Get(data, desc.key, VNone);
    if desc.isStrategy && IsPyInt(value) then
      VStr(StrategyName(PyIntValue(value), STRATEGY_SEQUENTIAL))
    else if Truthy(value) then value
    else VStr(MODE_STANDBY)
  }

  /** `async_select_option`: the command call a chosen option produces. */
  function SelectOption(desc: SelectDescription, option: string): (r: CommandCall)
    ensures r.command == desc.command && r.kwargs.Keys == {desc.commandParam}
    ensures desc.isStrategy && option in HEATING_STRATEGIES ==>
      r.kwargs[desc.commandParam].VInt? && 0 <= r.kwargs[desc.commandParam].i < 4 &&
      HEATING_STRATEGIES[r.kwargs[desc.commandParam].i] == option
    ensures desc.isStrategy && option !in HEATING_STRATEGIES ==> r.kwargs[desc.commandParam] == VInt(1)
    ensures !desc.isStrategy ==> r.kwargs[desc.commandParam] == VStr(option)
  {
    if desc.isStrategy then
      CommandCall(desc.command, map[desc.commandParam := VInt(StrategyCode(option, 1))])
    else
      CommandCall(desc.command, map[desc.commandParam := VStr(option)])
  }

  /** Selecting a strategy, then receiving back the code it sent, shows the same strategy again. */
  lemma StrategyNameRoundTrip(name: string, data: map<string, Value>)
    requires name in HEATING_STRATEGIES
    ensures var sent := SelectOption(STRATEGY_SELECT, name).kwargs["strategy"];
      CurrentOption(STRATEGY_SELECT, data["heating_strategy" := sent]) == VStr(name)
  {
  }

  /** A known code shown as a name and selected again sends that same code. */
  lemma StrategyCodeRoundTrip(code: int, data: map<string, Value>)
    requires 0 <= code < 4
    ensures var shown := CurrentOption(STRATEGY_SELECT, data["heating_strategy" := VInt(code)]);
      shown.VStr? && SelectOption(STRATEGY_SELECT, shown.s).kwargs["strategy"] == VInt(code)
  {
  }

  /** An unknown strategy code is shown as "sequential", which selects code 1. */
  lemma UnknownStrategyCode(code: int, data: map<string, Value>)
    requires !(0 <= code < 4)
    ensures CurrentOption(STRATEGY_SELECT, data["heating_strategy" := VInt(code)]) == VStr(STRATEGY_SEQUENTIAL)
    ensures SelectOption(STRATEGY_SELECT, STRATEGY_SEQUENTIAL).kwargs["strategy"] == VInt(1)
  {
  }

  /** A mode select passes the option through unchanged, and a missing mode is shown as standby. */
  lemma ModeSelectPassThrough(option: string, data: map<string, Value>)
    ensures SelectOption(MODE_SELECT, option) == CommandCall("set_mode", map["mode" := VStr(option)])
    ensures "mode" !in data ==> CurrentOption(MODE_SELECT, data) == VStr(MODE_STANDBY)
    ensures option != "" ==> CurrentOption(MODE_SELECT, data["mode" := VStr(option)]) == VStr(option)
  {
  }
}
