/**
 * The binary sensors: one per boolean status key, plus "ready", which is
 * derived from the machine state string.
 */
module HaBinarySensor {
  import opened Wrappers
  import opened PyValues

  datatype BinarySensorDescription = BinarySensorDescription(key: string, valueKey: Option<string>)

  const BINARY_SENSOR_DESCRIPTIONS: seq<BinarySensorDescription> := [
    BinarySensorDescription("is_brewing", None),
    BinarySensorDescription("is_heating", None),
    BinarySensorDescription("ready", Some("state")),
    BinarySensorDescription("water_low", None),
    BinarySensorDescription("alarm_active", None),
    BinarySensorDescription("pico_connected", None),
    BinarySensorDescription("scale_connected", None)
  ]

  /** `is_on`: "ready" compares the state string; every other sensor reads its key, defaulting to False. */
  function IsOn(desc: BinarySensorDescription, data: map<string, Value>): (r: Value)
    ensures desc.key == "ready" ==> (r == VBool(true) <==> "state" in data && data["state"] == VStr("ready"))
    ensures desc.key == "ready" ==> r.VBool?
    ensures desc.key != "ready" && desc.key in data ==> r == data[desc.key]
    ensures desc.key != "ready" && desc.key !in data ==> r == VBool(false)
  {
    if desc.key == "ready" then VBool(Get(data, "state", VNone) == VStr("ready"))
    else Get(data, desc.key, VBool(false))
  }

  /** "ready" depends on the state string alone, whatever the other fields say. */
  lemma ReadyDependsOnlyOnState(desc: BinarySensorDescription, d1: map<string, Value>, d2: map<string, Value>)
    requires desc.key == "ready"
    requires ("state" in d1 <==> "state" in d2) && ("state" in d1 ==> d1["state"] == d2["state"])
    ensures IsOn(desc, d1) == IsOn(desc, d2)
  {
  }

  /** Seven sensors with pairwise distinct keys; only "ready" uses a value key. */
  lemma DescriptionsDistinct()
    ensures |BINARY_SENSOR_DESCRIPTIONS| == 7
    ensures forall i, j :: 0 <= i < j < |BINARY_SENSOR_DESCRIPTIONS| ==>
      BINARY_SENSOR_DESCRIPTIONS[i].key != BINARY_SENSOR_DESCRIPTIONS[j].key
    ensures forall i :: 0 <= i < |BINARY_SENSOR_DESCRIPTIONS| ==>
      (BINARY_SENSOR_DESCRIPTIONS[i].valueKey.Some? <==> BINARY_SENSOR_DESCRIPTIONS[i].key == "ready")
  {
  }
}
