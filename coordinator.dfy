/**
 * The BrewOS data coordinator: it routes MQTT topics, decodes the status,
 * power and statistics streams into one `data` dictionary, mirrors the
 * availability stream, and builds outbound command bodies.
 */
module Coordinator {
  import opened Wrappers
  import opened PyValues
  import HaConst

  /** A received MQTT payload after `json.loads`: either it raised, or it produced a value. */
  datatype Payload = Undecodable | Decoded(v: Value)

  /** One entry of the dictionary literal a handler passes to `data.update`. */
  datatype Field =
    | Raw(key: string, default: Value)      // payload.get(key, default)
    | AsInt(key: string, default: Value)    // int(payload.get(key, default))
    | AsFloat(key: string, default: Value)  // float(payload.get(key, default))

  /** Topic of a stream: `prefix/device_id/suffix`, or `prefix/suffix` without a device id. */
  function BuildTopic(prefix: string, deviceId: string, suffix: string): (r: string)
    ensures deviceId != "" ==> r == prefix + "/" + deviceId + "/" + suffix
    ensures deviceId == "" ==> r == prefix + "/" + suffix
  {
    if deviceId != "" then prefix + "/" + deviceId + "/" + suffix else prefix + "/" + suffix
  }

  /** Within one coordinator, distinct streams get distinct topics. */
  lemma {:induction false} BuildTopicInjective(prefix: string, deviceId: string, s1: string, s2: string)
    ensures BuildTopic(prefix, deviceId, s1) == BuildTopic(prefix, deviceId, s2) <==> s1 == s2
  {
    var head := if deviceId != "" then prefix + "/" + deviceId + "/" else prefix + "/";
    var t1 := BuildTopic(prefix, deviceId, s1);
    var t2 := BuildTopic(prefix, deviceId, s2);
    assert t1 == head + s1;
    assert t2 == head + s2;
    if t1 == t2 {
      assert s1 == t1[|head|..];
      assert s2 == t2[|head|..];
    }
  }

  /** The four subscribed topics and the command topic are pairwise different. */
  lemma TopicsDistinct(prefix: string, deviceId: string)
    ensures var topics := [HaConst.TOPIC_STATUS, HaConst.TOPIC_POWER, HaConst.TOPIC_STATISTICS,
                           HaConst.TOPIC_AVAILABILITY, HaConst.TOPIC_COMMAND];
      forall i, j :: 0 <= i < j < |topics| ==>
        BuildTopic(prefix, deviceId, topics[i]) != BuildTopic(prefix, deviceId, topics[j])
  {
    var topics := [HaConst.TOPIC_STATUS, HaConst.TOPIC_POWER, HaConst.TOPIC_STATISTICS,
                   HaConst.TOPIC_AVAILABILITY, HaConst.TOPIC_COMMAND];
    forall i, j | 0 <= i < j < |topics|
      ensures BuildTopic(prefix, deviceId, topics[i]) != BuildTopic(prefix, deviceId, topics[j])
    {
      BuildTopicInjective(prefix, deviceId, topics[i], topics[j]);
    }
  }

  /** The value a field takes, or the exception its conversion raises. */
  function Convert(f: Field, payload: map<string, Value>): (r: Result<Value, PyError>)
    ensures f.Raw? ==> r == Ok(Get(payload, f.key, f.default))
    ensures f.AsInt? && r.Ok? ==> r.value.VInt?
    ensures f.AsFloat? && r.Ok? ==> r.value.VFloat?
  {
    var v := Get(payload, f.key, f.default);
    match f
    case Raw(_, _) => Ok(v)
    case AsInt(_, _) =>
      (match ToInt(v)
       case Ok(n) => Ok(VInt(n))
       case Err(e) => Err(e))
    case AsFloat(_, _) =>
      (match ToFloat(v)
       case Ok(x) => Ok(VFloat(x))
       case Err(e) => Err(e))
  }

  /** The keys a dictionary literal mentions. */
  function KeysOf(spec: seq<Field>): set<string> {
    set i | 0 <= i < |spec| :: spec[i].key
  }

  lemma KeysOfUnfold(spec: seq<Field>)
    requires spec != []
    ensures KeysOf(spec) == {spec[0].key} + KeysOf(spec[1..])
  {
    assert forall i :: 0 <= i < |spec| - 1 ==> spec[1..][i] == spec[i + 1];
    forall k | k in KeysOf(spec)
      ensures k in {spec[0].key} + KeysOf(spec[1..])
    {
      var i :| 0 <= i < |spec| && spec[i].key == k;
      if i > 0 {
        assert spec[1..][i - 1].key == k;
      }
    }
  }

  /** Every conversion of the literal succeeds. */
  predicate AllConvert(spec: seq<Field>, payload: map<string, Value>) {
    forall i :: 0 <= i < |spec| ==> Convert(spec[i], payload).Ok?
  }

  /**
   * Evaluates a dictionary literal left to right: the first failing
   * conversion raises; otherwise the result holds one entry per key, and a
   * key written twice keeps its later value.
   */
  function BuildFields(spec: seq<Field>, payload: map<string, Value>): (r: Result<map<string, Value>, PyError>)
    ensures r.Ok? <==> AllConvert(spec, payload)
    ensures r.Ok? ==> r.value.Keys == KeysOf(spec)
    decreases |spec|
  {
    if spec == [] then Ok(map[])
    else
      assert forall i :: 0 <= i < |spec| - 1 ==> spec[1..][i] == spec[i + 1];
      KeysOfUnfold(spec);
      match Convert(spec[0], payload)
      case Err(e) => Err(e)
      case Ok(v) =>
        match BuildFields(spec[1..], payload)
        case Err(e) => Err(e)
        case Ok(m) => Ok(map[spec[0].key := v] + m)
  }

  /** A key the literal writes for the last time holds that entry's converted value. */
  lemma {:induction false} BuildFieldsValue(spec: seq<Field>, payload: map<string, Value>, i: nat)
    requires BuildFields(spec, payload).Ok?
    requires i < |spec| && spec[i].key !in KeysOf(spec[i + 1..])
    ensures BuildFields(spec, payload).value[spec[i].key] == Convert(spec[i], payload).value
    decreases |spec|
  {
    var tail := spec[1..];
    assert forall j :: 0 <= j < |tail| ==> tail[j] == spec[j + 1];
    assert AllConvert(tail, payload);
    var v := Convert(spec[0], payload).value;
    var m := BuildFields(tail, payload).value;
    assert BuildFields(spec, payload).value == map[spec[0].key := v] + m;
    if i > 0 {
      assert tail[i - 1] == spec[i];
      assert tail[i..] == spec[i + 1..];
      BuildFieldsValue(tail, payload, i - 1);
      assert spec[i].key in m;
    }
  }

  /** When conversions 0..i-1 succeed and conversion i raises, the handler raises exactly that. */
  lemma {:induction false} BuildFieldsRaisesFirstFailure(spec: seq<Field>, payload: map<string, Value>, i: nat)
    requires i < |spec| && Convert(spec[i], payload).Err?
    requires forall j :: 0 <= j < i ==> Convert(spec[j], payload).Ok?
    ensures BuildFields(spec, payload) == Err(Convert(spec[i], payload).error)
    decreases |spec|
  {
    if i > 0 {
      var tail := spec[1..];
      assert forall j :: 0 <= j < |spec| - 1 ==> tail[j] == spec[j + 1];
      BuildFieldsRaisesFirstFailure(tail, payload, i - 1);
    }
  }

  /** What a handler does with a payload: the fields to merge, or the exception raised. */
  function Decode(spec: seq<Field>, p: Payload): (r: Result<map<string, Value>, PyError>)
    ensures p.Undecodable? ==> r == Err(JSONDecodeError)
    ensures p.Decoded? && !p.v.VDict? ==> r == Err(AttributeError)
    ensures p.Decoded? && p.v.VDict? ==> r == BuildFields(spec, p.v.entries)
  {
    match p
    case Undecodable => Err(JSONDecodeError)
    case Decoded(v) =>
      // `payload.get` on anything but a dict raises AttributeError
      if v.VDict? then BuildFields(spec, v.entries) else Err(AttributeError)
  }

  const STATUS_FIELDS: seq<Field> := [
    Raw("state", VStr("standby")),
    Raw("mode", VStr("standby")),
    AsInt("heating_strategy", VInt(1)),
    AsFloat("brew_temp", VInt(0)),
    AsFloat("brew_setpoint", VFloat(93.5)),
    AsFloat("steam_temp", VInt(0)),
    AsFloat("steam_setpoint", VFloat(145.0)),
    AsFloat("pressure", VInt(0)),
    AsFloat("scale_weight", VInt(0)),
    AsFloat("flow_rate", VInt(0)),
    AsFloat("shot_duration", VInt(0)),
    AsFloat("shot_weight", VInt(0)),
    AsFloat("target_weight", VFloat(36.0)),
    Raw("is_brewing", VBool(false)),
    Raw("is_heating", VBool(false)),
    Raw("water_low", VBool(false)),
    Raw("alarm_active", VBool(false)),
    Raw("pico_connected", VBool(false)),
    Raw("wifi_connected", VBool(true)),
    Raw("scale_connected", VBool(false))
  ]

  const POWER_FIELDS: seq<Field> := [
    AsFloat("power", VInt(0)),
    AsFloat("voltage", VInt(0)),
    AsFloat("current", VInt(0)),
    AsFloat("energy_import", VInt(0)),
    AsFloat("frequency", VInt(0)),
    AsFloat("power_factor", VInt(0))
  ]

  const STATISTICS_FIELDS: seq<Field> := [
    AsInt("shots_today", VInt(0)),
    AsInt("total_shots", VInt(0)),
    AsFloat("kwh_today", VInt(0))
  ]

  /** The keys each decoder writes, in the order its literal lists them. */
  const STATUS_KEY_LIST: seq<string> := [
    "state", "mode", "heating_strategy", "brew_temp", "brew_setpoint", "steam_temp",
    "steam_setpoint", "pressure", "scale_weight", "flow_rate", "shot_duration",
    "shot_weight", "target_weight", "is_brewing", "is_heating", "water_low",
    "alarm_active", "pico_connected", "wifi_connected", "scale_connected"]
  const POWER_KEY_LIST: seq<string> := ["power", "voltage", "current", "energy_import", "frequency", "power_factor"]
  const STATISTICS_KEY_LIST: seq<string> := ["shots_today", "total_shots", "kwh_today"]

  const STATUS_KEYS: set<string> := set k | k in STATUS_KEY_LIST
  const POWER_KEYS: set<string> := set k | k in POWER_KEY_LIST
  const STATISTICS_KEYS: set<string> := set k | k in STATISTICS_KEY_LIST

  lemma StatusKeys()
    ensures KeysOf(STATUS_FIELDS) == STATUS_KEYS
  {
    assert forall i :: 0 <= i < |STATUS_FIELDS| ==> STATUS_FIELDS[i].key == STATUS_KEY_LIST[i];
    assert forall k :: k in STATUS_KEY_LIST ==> exists i :: 0 <= i < |STATUS_KEY_LIST| && STATUS_KEY_LIST[i] == k;
  }

  lemma PowerKeys()
    ensures KeysOf(POWER_FIELDS) == POWER_KEYS
  {
    assert forall i :: 0 <= i < |POWER_FIELDS| ==> POWER_FIELDS[i].key == POWER_KEY_LIST[i];
    assert forall k :: k in POWER_KEY_LIST ==> exists i :: 0 <= i < |POWER_KEY_LIST| && POWER_KEY_LIST[i] == k;
  }

  lemma StatisticsKeys()
    ensures KeysOf(STATISTICS_FIELDS) == STATISTICS_KEYS
  {
    assert forall i :: 0 <= i < |STATISTICS_FIELDS| ==> STATISTICS_FIELDS[i].key == STATISTICS_KEY_LIST[i];
    assert forall k :: k in STATISTICS_KEY_LIST ==> exists i :: 0 <= i < |STATISTICS_KEY_LIST| && STATISTICS_KEY_LIST[i] == k;
  }

  /** The three decoders own disjoint key sets, none of which holds "available". */
  lemma StreamKeysDisjoint()
    ensures STATUS_KEYS !! POWER_KEYS && STATUS_KEYS !! STATISTICS_KEYS && POWER_KEYS !! STATISTICS_KEYS
    ensures "available" !in STATUS_KEYS + POWER_KEYS + STATISTICS_KEYS
  {
  }

  /** The dictionary the coordinator starts with. */
  const INITIAL_DATA: map<string, Value> := map[
    "state" := VStr("standby"),
    "mode" := VStr("standby"),
    "heating_strategy" := VInt(1),
    "brew_temp" := VFloat(0.0),
    "brew_setpoint" := VFloat(93.5),
    "steam_temp" := VFloat(0.0),
    "steam_setpoint" := VFloat(145.0),
    "pressure" := VFloat(0.0),
    "scale_weight" := VFloat(0.0),
    "flow_rate" := VFloat(0.0),
    "shot_duration" := VFloat(0.0),
    "shot_weight" := VFloat(0.0),
    "target_weight" := VFloat(36.0),
    "is_brewing" := VBool(false),
    "is_heating" := VBool(false),
    "water_low" := VBool(false),
    "alarm_active" := VBool(false),
    "pico_connected" := VBool(false),
    "wifi_connected" := VBool(true),
    "scale_connected" := VBool(false),
    "shots_today" := VInt(0),
    "total_shots" := VInt(0),
    "kwh_today" := VFloat(0.0),
    "power" := VInt(0),
    "voltage" := VInt(0),
    "current" := VInt(0),
    "available" := VBool(false),
    "sw_version" := VStr("unknown")
  ]

  /** A call `async_send_command(command, **kwargs)` an entity makes. */
  datatype CommandCall = CommandCall(command: string, kwargs: map<string, Value>)

  /** The outbound command body `{"cmd": command, **kwargs}`. */
  function CommandBody(command: string, kwargs: map<string, Value>): (r: map<string, Value>)
    ensures r.Keys == kwargs.Keys + {"cmd"}
    ensures forall k :: k in kwargs ==> r[k] == kwargs[k]
    ensures "cmd" !in kwargs ==> r["cmd"] == VStr(command)
  {
    map["cmd" := VStr(command)] + kwargs
  }

  class BrewOSCoordinator {
    const topicPrefix: string
    const deviceId: string
    /** The shared snapshot every entity reads. */
    var data: map<string, Value>
    /** `_available` */
    var isAvailable: bool
    /** Number of `async_set_updated_data` calls, i.e. listener fan-out rounds. */
    var updates: nat

    constructor(topicPrefix: string, deviceId: string)
      ensures this.topicPrefix == topicPrefix && this.deviceId == deviceId
      ensures data == INITIAL_DATA && !isAvailable && updates == 0
    {
      this.topicPrefix := topicPrefix;
      this.deviceId := deviceId;
      data := INITIAL_DATA;
      isAvailable := false;
      updates := 0;
    }

    /**
     * Shared body of the three structured handlers: build the whole field
     * dictionary first, then merge it and notify; on an exception nothing
     * changes. The exception is returned, and only the caught kinds are
     * absorbed by the handler (the others propagate to the MQTT callback).
     */
    method Apply(spec: seq<Field>, p: Payload) returns (raised: Option<PyError>)
      modifies this`data, this`updates
      ensures Decode(spec, p).Ok? ==>
        data == old(data) + Decode(spec, p).value && updates == old(updates) + 1 && raised == None
      ensures Decode(spec, p).Err? ==>
        data == old(data) && updates == old(updates) && raised == Some(Decode(spec, p).error)
    {
      match Decode(spec, p)
      case Ok(fields) =>
        data := data + fields;
        updates := updates + 1;
        raised := None;
      case Err(e) =>
        raised := Some(e);
    }

    method HandleStatusMessage(p: Payload) returns (raised: Option<PyError>)
      modifies this`data, this`updates
      ensures Decode(STATUS_FIELDS, p).Ok? ==>
        data == old(data) + Decode(STATUS_FIELDS, p).value && updates == old(updates) + 1 && raised == None
      ensures Decode(STATUS_FIELDS, p).Err? ==>
        data == old(data) && updates == old(updates) && raised == Some(Decode(STATUS_FIELDS, p).error)
    {
      raised := Apply(STATUS_FIELDS, p);
    }

    method HandlePowerMessage(p: Payload) returns (raised: Option<PyError>)
      modifies this`data, this`updates
      ensures Decode(POWER_FIELDS, p).Ok? ==>
        data == old(data) + Decode(POWER_FIELDS, p).value && updates == old(updates) + 1 && raised == None
      ensures Decode(POWER_FIELDS, p).Err? ==>
        data == old(data) && updates == old(updates) && raised == Some(Decode(POWER_FIELDS, p).error)
    {
      raised := Apply(POWER_FIELDS, p);
    }

    method HandleStatisticsMessage(p: Payload) returns (raised: Option<PyError>)
      modifies this`data, this`updates
      ensures Decode(STATISTICS_FIELDS, p).Ok? ==>
        data == old(data) + Decode(STATISTICS_FIELDS, p).value && updates == old(updates) + 1 && raised == None
      ensures Decode(STATISTICS_FIELDS, p).Err? ==>
        data == old(data) && updates == old(updates) && raised == Some(Decode(STATISTICS_FIELDS, p).error)
    {
      raised := Apply(STATISTICS_FIELDS, p);
    }

    /** The availability payload is compared as a raw string, with no JSON decoding. */
    method HandleAvailabilityMessage(payload: string)
      modifies this`data, this`isAvailable, this`updates
      ensures isAvailable <==> payload == "online"
      ensures data == old(data)["available" := VBool(isAvailable)]
      ensures updates == old(updates) + 1
    {
      isAvailable := payload == "online";
      data := data["available" := VBool(isAvailable)];
      updates := updates + 1;
    }

    /** The topic and body `async_send_command` publishes; the coordinator's state is untouched. */
    method SendCommand(command: string, kwargs: map<string, Value>) returns (topic: string, body: map<string, Value>)
      ensures topic == BuildTopic(topicPrefix, deviceId, HaConst.TOPIC_COMMAND)
      ensures body.Keys == kwargs.Keys + {"cmd"}
      ensures forall k :: k in kwargs ==> body[k] == kwargs[k]
      ensures "cmd" !in kwargs ==> body["cmd"] == VStr(command)
    {
      topic := BuildTopic(topicPrefix, deviceId, HaConst.TOPIC_COMMAND);
      body := CommandBody(command, kwargs);
    }
  }

  /** The keys of a suffix of a literal are the keys listed from that point on. */
  lemma KeysOfSuffix(spec: seq<Field>, keys: seq<string>, i: nat)
    requires |spec| == |keys| && i <= |spec|
    requires forall j :: 0 <= j < |spec| ==> spec[j].key == keys[j]
    ensures KeysOf(spec[i..]) == set k | k in keys[i..]
  {
    assert forall j :: 0 <= j < |spec| - i ==> spec[i..][j].key == keys[i..][j];
    forall k | k in keys[i..]
      ensures k in KeysOf(spec[i..])
    {
      var j :| 0 <= j < |keys[i..]| && keys[i..][j] == k;
      assert spec[i..][j].key == k;
    }
  }

  lemma StatusKeyListDistinct()
    ensures forall a, b :: 0 <= a < b < |STATUS_KEY_LIST| ==> STATUS_KEY_LIST[a] != STATUS_KEY_LIST[b]
  {
  }

  /** With distinct keys, every key holds its own field's converted value. */
  lemma FieldValue(spec: seq<Field>, keys: seq<string>, payload: map<string, Value>, i: nat)
    requires |spec| == |keys| && i < |spec|
    requires forall j :: 0 <= j < |spec| ==> spec[j].key == keys[j]
    requires forall a, b :: 0 <= a < b < |keys| ==> keys[a] != keys[b]
    requires AllConvert(spec, payload)
    ensures keys[i] in BuildFields(spec, payload).value
    ensures BuildFields(spec, payload).value[keys[i]] == Convert(spec[i], payload).value
  {
    KeysOfSuffix(spec, keys, i + 1);
    assert keys[i] !in keys[i + 1..];
    BuildFieldsValue(spec, payload, i);
  }

  lemma StatusKeysMatch()
    ensures |STATUS_FIELDS| == |STATUS_KEY_LIST|
    ensures forall j :: 0 <= j < |STATUS_FIELDS| ==> STATUS_FIELDS[j].key == STATUS_KEY_LIST[j]
  {
  }

  /** After a successful status decode, each status key holds its own field's converted value. */
  lemma StatusFieldValue(payload: map<string, Value>, i: nat)
    requires AllConvert(STATUS_FIELDS, payload) && i < |STATUS_FIELDS|
    ensures STATUS_KEY_LIST[i] in BuildFields(STATUS_FIELDS, payload).value
    ensures BuildFields(STATUS_FIELDS, payload).value[STATUS_KEY_LIST[i]] == Convert(STATUS_FIELDS[i], payload).value
  {
    StatusKeysMatch();
    StatusKeyListDistinct();
    FieldValue(STATUS_FIELDS, STATUS_KEY_LIST, payload, i);
  }

  /** After a successful statistics decode, each counter holds its own field's converted value. */
  lemma StatisticsFieldValue(payload: map<string, Value>, i: nat)
    requires AllConvert(STATISTICS_FIELDS, payload) && i < |STATISTICS_FIELDS|
    ensures STATISTICS_KEY_LIST[i] in BuildFields(STATISTICS_FIELDS, payload).value
    ensures BuildFields(STATISTICS_FIELDS, payload).value[STATISTICS_KEY_LIST[i]] == Convert(STATISTICS_FIELDS[i], payload).value
  {
    FieldValue(STATISTICS_FIELDS, STATISTICS_KEY_LIST, payload, i);
  }

  /** The status decoder owns none of the power, statistics or availability keys. */
  lemma StatusOwnsNoOtherKey(k: string)
    requires k in POWER_KEYS + STATISTICS_KEYS + {"available"}
    ensures k !in KeysOf(STATUS_FIELDS)
  {
    StatusKeys();
    StreamKeysDisjoint();
  }

  /** A successful merge keeps every key the decoder does not own and writes every key it owns. */
  lemma MergeKeepsOtherKeys(data: map<string, Value>, spec: seq<Field>, p: Payload)
    requires Decode(spec, p).Ok?
    ensures (data + Decode(spec, p).value).Keys == data.Keys + KeysOf(spec)
    ensures forall k :: k in data && k !in KeysOf(spec) ==> (data + Decode(spec, p).value)[k] == data[k]
  {
  }

  /** A status message never touches the power or statistics keys, nor "available". */
  lemma StatusLeavesOtherStreams(data: map<string, Value>, p: Payload)
    requires Decode(STATUS_FIELDS, p).Ok?
    ensures forall k :: k in data && k !in STATUS_KEYS ==> (data + Decode(STATUS_FIELDS, p).value)[k] == data[k]
    ensures forall k :: k in POWER_KEYS + STATISTICS_KEYS + {"available"} && k in data ==>
      (data + Decode(STATUS_FIELDS, p).value)[k] == data[k]
  {
    StatusKeys();
    StreamKeysDisjoint();
  }

  /** A statistics message changes only shots_today, total_shots and kwh_today, with those types. */
  lemma StatisticsChangesOnlyCounters(data: map<string, Value>, p: Payload)
    requires Decode(STATISTICS_FIELDS, p).Ok?
    ensures (data + Decode(STATISTICS_FIELDS, p).value).Keys == data.Keys + STATISTICS_KEYS
    ensures forall k :: k in data && k !in STATISTICS_KEYS ==> (data + Decode(STATISTICS_FIELDS, p).value)[k] == data[k]
    ensures (data + Decode(STATISTICS_FIELDS, p).value)["shots_today"].VInt?
    ensures (data + Decode(STATISTICS_FIELDS, p).value)["total_shots"].VInt?
    ensures (data + Decode(STATISTICS_FIELDS, p).value)["kwh_today"].VFloat?
  {
    var f := Decode(STATISTICS_FIELDS, p).value;
    var payload := p.v.entries;
    assert f == BuildFields(STATISTICS_FIELDS, payload).value;
    StatisticsKeys();
    MergeOwnsKeys(data, f, STATISTICS_KEYS);
    StatisticsTyped(payload);
  }

  /** Merging a decoder's fields: its keys join the data and take its values; every other key keeps its value. */
  lemma MergeOwnsKeys(data: map<string, Value>, f: map<string, Value>, keys: set<string>)
    requires f.Keys == keys
    ensures (data + f).Keys == data.Keys + keys
    ensures forall k :: k in data && k !in keys ==> (data + f)[k] == data[k]
    ensures forall k :: k in f ==> (data + f)[k] == f[k]
  {
  }

  /** The statistics decoder yields integer shot counters and a float energy total. */
  lemma StatisticsTyped(payload: map<string, Value>)
    requires AllConvert(STATISTICS_FIELDS, payload)
    ensures var f := BuildFields(STATISTICS_FIELDS, payload).value;
      "shots_today" in f && f["shots_today"].VInt?
      && "total_shots" in f && f["total_shots"].VInt?
      && "kwh_today" in f && f["kwh_today"].VFloat?
  {
    StatisticsFieldValue(payload, 0);
    StatisticsFieldValue(payload, 1);
    StatisticsFieldValue(payload, 2);
  }

  /** A status payload with a non-numeric brew_temp raises ValueError, which the handler catches. */
  lemma NonNumericBrewTempIsCaught(rest: map<string, Value>, bad: string)
    requires ParseFloat(bad).None?
    requires "heating_strategy" !in rest
    ensures Decode(STATUS_FIELDS, Decoded(VDict(rest["brew_temp" := VStr(bad)]))) == Err(ValueError)
    ensures Caught(ValueError)
  {
    var payload := rest["brew_temp" := VStr(bad)];
    assert Convert(STATUS_FIELDS[2], payload) == Ok(VInt(1));
    assert Convert(STATUS_FIELDS[3], payload) == Err(ValueError);
    BuildFieldsRaisesFirstFailure(STATUS_FIELDS, payload, 3);
  }

  /** Every payload that is not a JSON object makes a handler raise AttributeError, which is not caught. */
  lemma NonObjectPayloadRaises(spec: seq<Field>, v: Value)
    requires !v.VDict?
    ensures Decode(spec, Decoded(v)) == Err(AttributeError)
    ensures !Caught(AttributeError)
  {
  }
}
