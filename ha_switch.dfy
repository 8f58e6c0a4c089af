/** The machine power switch: on unless the mode is standby. */
module HaSwitch {
  import opened PyValues
  import opened HaConst
  import opened Coordinator

  /** `is_on`: a missing mode counts as standby. */
  function IsOn(data: map<string, Value>): (r: bool)
    ensures r <==> "mode" in data && data["mode"] != VStr(MODE_STANDBY)
  {
    Get(data, "mode", VStr(MODE_STANDBY)) != VStr(MODE_STANDBY)
  }

  /** `async_turn_on` */
  function TurnOn(): (r: CommandCall)
    ensures r.command == "set_mode" && r.kwargs == map["mode" := VStr(MODE_ON)]
  {
    CommandCall("set_mode", map["mode" := VStr(MODE_ON)])
  }

  /** `async_turn_off` */
  function TurnOff(): (r: CommandCall)
    ensures r.command == "set_mode" && r.kwargs == map["mode" := VStr(MODE_STANDBY)]
  {
    CommandCall("set_mode", map["mode" := VStr(MODE_STANDBY)])
  }

  /** Once the firmware echoes the requested mode, the switch shows the requested position. */
  lemma TurnOnOffEcho(data: map<string, Value>)
    ensures IsOn(data["mode" := TurnOn().kwargs["mode"]])
    ensures !IsOn(data["mode" := TurnOff().kwargs["mode"]])
  {
  }
}
