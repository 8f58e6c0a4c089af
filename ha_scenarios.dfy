/**
 * End-to-end behaviour of the integration: a payload goes through a
 * decoder into the coordinator's data and out through an entity, or an
 * entity's choice goes out as a command.
 */
module HaScenarios {
  import opened Wrappers
  import opened PyValues
  import opened HaConst
  import opened Coordinator
  import HaSelect
  import HaBinarySensor

  /** The "ready" binary sensor, the third of the integration's descriptions. */
  const READY_SENSOR: HaBinarySensor.BinarySensorDescription := HaBinarySensor.BinarySensorDescription("ready", Some("state"))

  lemma ReadySensorListed()
    ensures HaBinarySensor.BINARY_SENSOR_DESCRIPTIONS[2] == READY_SENSOR
  {
  }

  lemma StateField(payload: map<string, Value>)
    requires AllConvert(STATUS_FIELDS, payload)
    ensures var f := BuildFields(STATUS_FIELDS, payload).value;
      "state" in f && f["state"] == Get(payload, "state", VStr("standby"))
  {
    assert STATUS_KEY_LIST[0] == "state" && STATUS_FIELDS[0] == Raw("state", VStr("standby"));
    StatusFieldValue(payload, 0);
  }

  lemma BrewTempField(payload: map<string, Value>)
    requires AllConvert(STATUS_FIELDS, payload)
    ensures var f := BuildFields(STATUS_FIELDS, payload).value;
      ToFloat(Get(payload, "brew_temp", VInt(0))).Ok? &&
      "brew_temp" in f && f["brew_temp"] == VFloat(ToFloat(Get(payload, "brew_temp", VInt(0))).value)
  {
    assert STATUS_KEY_LIST[3] == "brew_temp" && STATUS_FIELDS[3] == AsFloat("brew_temp", VInt(0));
    StatusFieldValue(payload, 3);
    FloatConverted(STATUS_FIELDS[3], payload);
  }

  lemma BrewSetpointField(payload: map<string, Value>)
    requires AllConvert(STATUS_FIELDS, payload)
    ensures var f := BuildFields(STATUS_FIELDS, payload).value;
      ToFloat(Get(payload, "brew_setpoint", VFloat(93.5))).Ok? &&
      "brew_setpoint" in f && f["brew_setpoint"] == VFloat(ToFloat(Get(payload, "brew_setpoint", VFloat(93.5))).value)
  {
    assert STATUS_KEY_LIST[4] == "brew_setpoint" && STATUS_FIELDS[4] == AsFloat("brew_setpoint", VFloat(93.5));
    StatusFieldValue(payload, 4);
    FloatConverted(STATUS_FIELDS[4], payload);
  }

  /** A field converted as a float holds the float its value reads as. */
  lemma FloatConverted(f: Field, payload: map<string, Value>)
    requires f.AsFloat? && Convert(f, payload).Ok?
    ensures ToFloat(Get(payload, f.key, f.default)).Ok?
    ensures Convert(f, payload).value == VFloat(ToFloat(Get(payload, f.key, f.default)).value)
  {
  }

  lemma ShotsTodayField(payload: map<string, Value>)
    requires AllConvert(STATISTICS_FIELDS, payload)
    ensures var f := BuildFields(STATISTICS_FIELDS, payload).value;
      ToInt(Get(payload, "shots_today", VInt(0))).Ok? &&
      "shots_today" in f && f["shots_today"] == VInt(ToInt(Get(payload, "shots_today", VInt(0))).value)
  {
    assert STATISTICS_KEY_LIST[0] == "shots_today" && STATISTICS_FIELDS[0] == AsInt("shots_today", VInt(0));
    StatisticsFieldValue(payload, 0);
  }

  lemma ReadyPayloadConverts(payload: map<string, Value>)
    requires payload == map["state" := VStr("ready"), "brew_temp" := VFloat(92.1)]
    ensures AllConvert(STATUS_FIELDS, payload)
    ensures Get(payload, "state", VStr("standby")) == VStr("ready")
    ensures Get(payload, "brew_temp", VInt(0)) == VFloat(92.1)
    ensures Get(payload, "brew_setpoint", VFloat(93.5)) == VFloat(93.5)
  {
    assert AllConvert(STATUS_FIELDS, payload);
  }

  lemma CounterPayloadsConvert(stats: map<string, Value>, status: map<string, Value>)
    requires stats == map["shots_today" := VInt(5)]
    requires status == map["state" := VStr("brewing")]
    ensures Decode(STATISTICS_FIELDS, Decoded(VDict(stats))).Ok?
    ensures Decode(STATUS_FIELDS, Decoded(VDict(status))).Ok?
  {
    assert AllConvert(STATISTICS_FIELDS, stats);
    assert AllConvert(STATUS_FIELDS, status);
  }

  /**
   * `{"state": "ready", "brew_temp": 92.1}` on the status topic: the state and
   * temperature are stored, "ready" turns on, and brew_setpoint is rewritten
   * with its decoder default 93.5 whatever it held before.
   */
  lemma StatusReadyScenario(data: map<string, Value>, payload: map<string, Value>)
    requires payload == map["state" := VStr("ready"), "brew_temp" := VFloat(92.1)]
    ensures Decode(STATUS_FIELDS, Decoded(VDict(payload))).Ok?
    ensures var after := data + Decode(STATUS_FIELDS, Decoded(VDict(payload))).value;
      "state" in after && after["state"] == VStr("ready") &&
      "brew_temp" in after && after["brew_temp"] == VFloat(92.1) &&
      "brew_setpoint" in after && after["brew_setpoint"] == VFloat(93.5) &&
      HaBinarySensor.IsOn(READY_SENSOR, after) == VBool(true)
  {
    ReadyPayloadConverts(payload);
    StatusReady(data, payload);
  }

  /** A status payload saying "ready" at 92.1 degrees, with no setpoint: what the merge leaves. */
  lemma StatusReady(data: map<string, Value>, payload: map<string, Value>)
    requires AllConvert(STATUS_FIELDS, payload)
    requires Get(payload, "state", VStr("standby")) == VStr("ready")
    requires Get(payload, "brew_temp", VInt(0)) == VFloat(92.1)
    requires Get(payload, "brew_setpoint", VFloat(93.5)) == VFloat(93.5)
    ensures Decode(STATUS_FIELDS, Decoded(VDict(payload))).Ok?
    ensures var after := data + Decode(STATUS_FIELDS, Decoded(VDict(payload))).value;
      "state" in after && after["state"] == VStr("ready") &&
      "brew_temp" in after && after["brew_temp"] == VFloat(92.1) &&
      "brew_setpoint" in after && after["brew_setpoint"] == VFloat(93.5) &&
      HaBinarySensor.IsOn(READY_SENSOR, after) == VBool(true)
  {
    StateField(payload);
    BrewTempField(payload);
    BrewSetpointField(payload);
    var f := BuildFields(STATUS_FIELDS, payload).value;
    var after := data + f;
    assert "state" in after && after["state"] == VStr("ready");
  }

  /** A statistics merge followed by a status merge keeps the counter and the state together. */
  lemma StatisticsThenStatus(data: map<string, Value>, stats: map<string, Value>, status: map<string, Value>)
    requires AllConvert(STATISTICS_FIELDS, stats) && AllConvert(STATUS_FIELDS, status)
    ensures var after := data + BuildFields(STATISTICS_FIELDS, stats).value + BuildFields(STATUS_FIELDS, status).value;
      "shots_today" in after && after["shots_today"] == VInt(ToInt(Get(stats, "shots_today", VInt(0))).value) &&
      "state" in after && after["state"] == Get(status, "state", VStr("standby"))
  {
    ShotsTodayField(stats);
    StateField(status);
    StatusOwnsNoOtherKey("shots_today");
  }

  /** Statistics `{"shots_today": 5}` then status `{"state": "brewing"}`: both values survive. */
  lemma StatisticsThenStatusScenario(data: map<string, Value>, stats: map<string, Value>, status: map<string, Value>)
    requires stats == map["shots_today" := VInt(5)]
    requires status == map["state" := VStr("brewing")]
    ensures Decode(STATISTICS_FIELDS, Decoded(VDict(stats))).Ok?
    ensures Decode(STATUS_FIELDS, Decoded(VDict(status))).Ok?
    ensures var after := data + Decode(STATISTICS_FIELDS, Decoded(VDict(stats))).value
                              + Decode(STATUS_FIELDS, Decoded(VDict(status))).value;
      "shots_today" in after && after["shots_today"] == VInt(5) &&
      "state" in after && after["state"] == VStr("brewing")
  {
    CounterPayloadsConvert(stats, status);
    StatisticsThenStatus(data, stats, status);
  }

  /** Choosing "parallel" publishes `{"cmd": "set_heating_strategy", "strategy": 2}` on the command topic. */
  method ParallelStrategyScenario(c: BrewOSCoordinator) returns (topic: string, body: map<string, Value>)
    requires c.deviceId != ""
    ensures topic == c.topicPrefix + "/" + c.deviceId + "/command"
    ensures body == map["cmd" := VStr("set_heating_strategy"), "strategy" := VInt(2)]
  {
    var call := HaSelect.SelectOption(HaSelect.STRATEGY_SELECT, STRATEGY_PARALLEL);
    assert call == CommandCall("set_heating_strategy", map["strategy" := VInt(2)]);
    topic, body := c.SendCommand(call.command, call.kwargs);
  }
}
