# BrewOS core, modelled in Dafny

BrewOS is the firmware of a dual-controller espresso machine. A Raspberry Pi
Pico runs the machine, an ESP32 runs the network side, and a Home Assistant
integration presents the machine to a smart home. This project models their
core logic and proves what that logic promises:

- **Shared protocol** (`protocol_defs.dfy`, `crc16.dfy`): message types,
  limits and the CRC-16/CCITT frame checksum.
- **Pico firmware**:
  - `pico_protocol.dfy`: the UART link's frame builder, byte-at-a-time
    parser, pending-command table with retries and timeouts, and statistics.
  - `class_b_*.dfy`, `class_b.dfy`: the IEC 60730 Class B self-tests. These
    cover the CRC-32 flash check, the March C RAM test, the clock tolerance
    test, the I/O and program-counter checks and the scheduler.
  - `modbus.dfy`, `power_meter.dfy`: the Modbus RTU power meter driver
    (frame CRC, request building, response reception, register maps,
    auto-detection).
  - `config_persistence.dfy`: the flash configuration record (byte layout,
    CRC-32, validation and save/load).
  - `logging.dfy`: the logging ring buffer and its forwarding.
  - `pico_state.dfy`: the machine state transitions (modes, pre-infusion
    phases, eco timeout).
- **ESP32 firmware**:
  - `pico_uart.dfy`: the receiving side of the Pico link.
  - `pico_protocol_handler.dfy`: the NACK backoff.
  - `msgpack_format.dfy`, `msgpack_writer.dfy`: the MessagePack writer and
    its encoding.
  - `cloud_connection.dfy`: the cloud send queue.
  - `log_manager.dfy`: the log ring.
  - `state_types.dfy`: the settings and schedule tables.
  - `statistics_manager.dfy`: the shot statistics.
  - `notification_manager.dfy`: the notification lists.
  - `json_buffer_pool.dfy`: the JSON buffer pool.
  - `scale_factory.dfy`: BLE scale detection.
- **Home Assistant integration** (`coordinator.dfy`, `py_values.dfy`,
  `ha_*.dfy`): the MQTT coordinator, with its topics, status decoding and
  command bodies, and the select, binary sensor, switch and scenario
  entities.

Code that changes state step by step is modelled as classes whose methods are
proved against specification functions. Pure code is modelled as functions.

Where the proofs show the code itself to be wrong, "## Findings"
lists the fault. The model then keeps two definitions: the code as written,
with a lemma that exhibits the fault, and the corrected definition. The
classes and the rest of the model run the corrected definitions. Besides the
corrected members the table names, each member that runs a corrected
definition has a line under "## Left out" naming the correction and what the
code does instead.

Three coordinator behaviours a reader might not expect:

- The coordinator's status decoder rewrites every status key that is absent
  from a message with its default. It does not leave the old value in place.
- The command body is built as `{"cmd": command, **kwargs}`, so a `cmd`
  keyword argument overrides the command name.
- A JSON payload that is not an object raises an `AttributeError`, which the
  message handlers do not catch. A decode that cannot proceed is modelled as
  an error result.

## Model

| member | source | states |
|---|---|---|
| Coordinator.BuildTopic | homeassistant/custom_components/brewos/coordinator.py:76-80 | with a device id the topic is prefix/device_id/suffix, without one it is prefix/suffix |
| Coordinator.BuildTopicInjective | homeassistant/custom_components/brewos/coordinator.py:76-80 | for one prefix and device id, two suffixes give the same topic exactly when they are equal |
| Coordinator.TopicsDistinct | homeassistant/custom_components/brewos/coordinator.py:82-122 | the status, power, statistics, availability and command topics of one coordinator are pairwise distinct |
| Coordinator.Convert | homeassistant/custom_components/brewos/coordinator.py:139-160 | a raw field is payload.get(key, default); an int() field yields an int and a float() field a float, or the conversion's exception |
| Coordinator.BuildFields | homeassistant/custom_components/brewos/coordinator.py:139-160 | the dictionary literal evaluates exactly when every conversion succeeds, and then its keys are exactly the listed keys |
| Coordinator.BuildFieldsValue | homeassistant/custom_components/brewos/coordinator.py:139-160 | a key written for the last time at entry i holds that entry's converted value |
| Coordinator.BuildFieldsRaisesFirstFailure | homeassistant/custom_components/brewos/coordinator.py:139-160 | when entries before i convert and entry i fails, the literal raises entry i's exception |
| Coordinator.Decode | homeassistant/custom_components/brewos/coordinator.py:135-139 | an undecodable payload raises JSONDecodeError, a JSON value that is not an object raises AttributeError at payload.get, an object yields the field dictionary |
| Coordinator.StatusKeys | homeassistant/custom_components/brewos/coordinator.py:139-160 | the status literal writes exactly the twenty status keys |
| Coordinator.PowerKeys | homeassistant/custom_components/brewos/coordinator.py:173-180 | the power literal writes exactly the six power keys |
| Coordinator.StatisticsKeys | homeassistant/custom_components/brewos/coordinator.py:193-197 | the statistics literal writes exactly the three counter keys |
| Coordinator.StreamKeysDisjoint | homeassistant/custom_components/brewos/coordinator.py:139-209 | the status, power and statistics handlers write pairwise disjoint keys, none of them "available" |
| Coordinator.CommandBody | homeassistant/custom_components/brewos/coordinator.py:219 | the command body's keys are the keyword arguments plus "cmd"; every keyword argument is kept (one named cmd overrides the command) and otherwise "cmd" is the command |
| Coordinator.BrewOSCoordinator.constructor | homeassistant/custom_components/brewos/coordinator.py:27-74 | a new coordinator holds the fully populated initial data and is unavailable |
| Coordinator.BrewOSCoordinator.Apply | homeassistant/custom_components/brewos/coordinator.py:135-165 | on success the data is merged with the decoded fields and one update is published; on an exception the data is unchanged and the exception is reported |
| Coordinator.BrewOSCoordinator.HandleStatusMessage | homeassistant/custom_components/brewos/coordinator.py:133-165 | a status message merges the status fields or leaves the data unchanged with the exception raised |
| Coordinator.BrewOSCoordinator.HandlePowerMessage | homeassistant/custom_components/brewos/coordinator.py:168-185 | a power message merges the six power fields or leaves the data unchanged |
| Coordinator.BrewOSCoordinator.HandleStatisticsMessage | homeassistant/custom_components/brewos/coordinator.py:188-202 | a statistics message merges the three counters or leaves the data unchanged |
| Coordinator.BrewOSCoordinator.HandleAvailabilityMessage | homeassistant/custom_components/brewos/coordinator.py:205-210 | the coordinator is available exactly when the payload is "online"; that flag is stored under "available" and one update is published |
| Coordinator.BrewOSCoordinator.SendCommand | homeassistant/custom_components/brewos/coordinator.py:217-227 | the command is published on the command topic with the body built from cmd and the keyword arguments |
| Coordinator.KeysOfSuffix | homeassistant/custom_components/brewos/coordinator.py:139-160 | the keys written by a tail of the literal are the keys listed in that tail |
| Coordinator.StatusKeyListDistinct | homeassistant/custom_components/brewos/coordinator.py:139-160 | the status literal lists no key twice |
| Coordinator.FieldValue | homeassistant/custom_components/brewos/coordinator.py:139-197 | with distinct keys every key of the literal holds its own entry's converted value |
| Coordinator.StatusKeysMatch | homeassistant/custom_components/brewos/coordinator.py:139-160 | the modelled status entries carry the source's keys in the source's order |
| Coordinator.StatusFieldValue | homeassistant/custom_components/brewos/coordinator.py:139-160 | after a successful status decode each status key holds its entry's converted value |
| Coordinator.StatisticsFieldValue | homeassistant/custom_components/brewos/coordinator.py:193-197 | after a successful statistics decode each counter holds its entry's converted value |
| Coordinator.StatusOwnsNoOtherKey | homeassistant/custom_components/brewos/coordinator.py:139-209 | no power, statistics or availability key is written by the status handler |
| Coordinator.MergeKeepsOtherKeys | homeassistant/custom_components/brewos/coordinator.py:139 | dict.update adds the decoded keys and keeps every other key's value |
| Coordinator.StatusLeavesOtherStreams | homeassistant/custom_components/brewos/coordinator.py:139-160 | a status message leaves power, statistics and availability values as they were |
| Coordinator.StatisticsChangesOnlyCounters | homeassistant/custom_components/brewos/coordinator.py:193-197 | a statistics message changes only the three counters |
| Coordinator.NonNumericBrewTempIsCaught | homeassistant/custom_components/brewos/coordinator.py:143-165 | a non-numeric brew_temp makes float() raise ValueError, which the handler catches |
| Coordinator.NonObjectPayloadRaises | homeassistant/custom_components/brewos/coordinator.py:136-165 | a JSON payload that is not an object raises AttributeError, which the handler does not catch |
| PyValues.Get | homeassistant/custom_components/brewos/coordinator.py:140 | d.get(key, default) is the stored value when the key is present and the default otherwise |
| PyValues.DotIndex | homeassistant/custom_components/brewos/coordinator.py:143 | the first '.' of a numeric literal, or none when the text has none |
| PyValues.TruncateTowardZero | homeassistant/custom_components/brewos/coordinator.py:142 | int() of a float truncates toward zero, for either sign |
| PyValues.ToInt | homeassistant/custom_components/brewos/coordinator.py:142 | int(): ints pass, bools are 0/1, None/lists/dicts raise TypeError, a string converts exactly when it parses as an integer, otherwise ValueError |
| PyValues.ToFloat | homeassistant/custom_components/brewos/coordinator.py:143 | float(): floats pass, ints and bools widen, None/lists/dicts raise TypeError, a string converts exactly when it parses as a number |
| PyValues.ShowNat | homeassistant/custom_components/brewos/coordinator.py:142 | the decimal rendering of a natural is a nonempty digit string |
| PyValues.DigitsOfShowNat | homeassistant/custom_components/brewos/coordinator.py:142 | the digits of a rendered natural read back as that natural |
| PyValues.ParseIntShowInt | homeassistant/custom_components/brewos/coordinator.py:142 | int() reads back every integer written in decimal |
| HaScenarios.StateField | homeassistant/custom_components/brewos/coordinator.py:140 | a converted status payload's state is payload.get("state", "standby") |
| HaScenarios.BrewTempField | homeassistant/custom_components/brewos/coordinator.py:143 | a converted status payload's brew_temp is float(payload.get("brew_temp", 0)) |
| HaScenarios.BrewSetpointField | homeassistant/custom_components/brewos/coordinator.py:144 | a converted status payload's brew_setpoint defaults to 93.5 |
| HaScenarios.ShotsTodayField | homeassistant/custom_components/brewos/coordinator.py:194 | a converted statistics payload's shots_today is int(payload.get("shots_today", 0)) |
| HaScenarios.ReadyPayloadConverts | homeassistant/custom_components/brewos/coordinator.py:139-160 | the payload {"state": "ready", "brew_temp": 92.1} decodes without an exception |
| HaScenarios.CounterPayloadsConvert | homeassistant/custom_components/brewos/coordinator.py:139-197 | the statistics payload {"shots_today": 5} and the status payload {"state": "brewing"} both decode |
| HaScenarios.StatusReadyScenario | homeassistant/custom_components/brewos/binary_sensor.py:108-116 | after {"state": "ready", "brew_temp": 92.1} the state is ready, brew_temp is 92.1, the setpoint defaults to 93.5 and the ready sensor is on |
| HaScenarios.StatisticsThenStatus | homeassistant/custom_components/brewos/coordinator.py:139-197 | a statistics merge followed by a status merge keeps the counter and sets the state |
| HaScenarios.StatisticsThenStatusScenario | homeassistant/custom_components/brewos/coordinator.py:139-197 | after {"shots_today": 5} then {"state": "brewing"} the data holds shots_today 5 and state brewing |
| HaScenarios.ParallelStrategyScenario | homeassistant/custom_components/brewos/select.py:101-108 | choosing "parallel" publishes {"cmd": "set_heating_strategy", "strategy": 2} on the command topic |
| HaConst.StrategyName | homeassistant/custom_components/brewos/select.py:97 | a code 0..3 names its strategy in the listed order; any other code gives the default |
| HaConst.StrategyCode | homeassistant/custom_components/brewos/select.py:107 | a listed strategy name gives its index 0..3; any other name gives the default |
| HaConst.StrategyMapsInverse | homeassistant/custom_components/brewos/const.py:57-77 | the value map covers codes 0..3, the name map covers exactly the listed strategies, and each map inverts the other |
| HaConst.StrategyMapsInjective | homeassistant/custom_components/brewos/const.py:65-77 | both maps have four entries and send distinct keys to distinct values |
| HaConst.StrategiesIndexedByCode | homeassistant/custom_components/brewos/const.py:57-70 | the strategy list has four entries and entry i is the value map's name for code i |
| HaSelect.CurrentOption | homeassistant/custom_components/brewos/select.py:90-99 | the strategy select shows an integer code's name, "sequential" for an unknown code; the mode select shows a truthy value as it is and "standby" otherwise |
| HaSelect.SelectOption | homeassistant/custom_components/brewos/select.py:101-110 | a strategy choice sends its code (1 for an unknown name); a mode choice sends the option text; each call carries one keyword argument |
| HaSelect.StrategyNameRoundTrip | homeassistant/custom_components/brewos/select.py:90-110 | a strategy name sent and echoed back is shown as that name |
| HaSelect.StrategyCodeRoundTrip | homeassistant/custom_components/brewos/select.py:90-110 | a code 0..3 shown as a name is sent back as the same code |
| HaSelect.UnknownStrategyCode | homeassistant/custom_components/brewos/select.py:97-107 | an unknown code is shown as "sequential", which is sent back as code 1 |
| HaSelect.ModeSelectPassThrough | homeassistant/custom_components/brewos/select.py:90-110 | the mode select sends set_mode with the option, shows "standby" when the mode is absent, and echoes back a nonempty mode |
| HaBinarySensor.IsOn | homeassistant/custom_components/brewos/binary_sensor.py:108-116 | the ready sensor is on exactly when state is "ready"; another sensor reports its key's stored value, or false when absent |
| HaBinarySensor.ReadyDependsOnlyOnState | homeassistant/custom_components/brewos/binary_sensor.py:108-114 | the ready sensor's value depends only on the stored state |
| HaBinarySensor.DescriptionsDistinct | homeassistant/custom_components/brewos/binary_sensor.py:27-70 | there are seven binary sensors with distinct keys, and only "ready" reads another key |
| HaSwitch.IsOn | homeassistant/custom_components/brewos/switch.py:60-63 | the power switch is on exactly when a mode is stored and it is not "standby" |
| HaSwitch.TurnOn | homeassistant/custom_components/brewos/switch.py:65-67 | turning on sends set_mode with mode "on" |
| HaSwitch.TurnOff | homeassistant/custom_components/brewos/switch.py:69-71 | turning off sends set_mode with mode "standby" |
| HaSwitch.TurnOnOffEcho | homeassistant/custom_components/brewos/switch.py:60-71 | once the device echoes the sent mode, the switch reads on after turn-on and off after turn-off |
| ProtocolDefs.FrameBody | src/shared/protocol_defs.h:37-41 | the bytes the CRC covers are type, length, sequence number and then the payload unchanged |
| ProtocolDefs.Frame | src/shared/protocol_defs.h:37-41 | a frame is the sync byte 0xAA, type, payload length, sequence number, the payload and the CRC low byte first, and never exceeds PROTOCOL_MAX_PACKET |
| Crc16Ccitt.EightShifts | src/pico/src/protocol.c:70-77 | the inner loop of eight conditional shifts is one byte step of CRC-16-CCITT (polynomial 0x1021) |
| Crc16Ccitt.Crc16Value | src/pico/src/protocol.c:67-82 | the CRC register is always a 16-bit value |
| Crc16Ccitt.CrcFromAppend | src/pico/src/protocol.c:67-82 | feeding a then b gives the same CRC as feeding a + b from the same start |
| Crc16Ccitt.Crc16CheckValue | src/pico/src/protocol.c:67-82 | the CRC of no bytes is the 0xFFFF seed, and the CRC of "123456789" is 0x29B1, the CRC-16/CCITT-FALSE check value |
| PicoProtocol.RxStep | src/pico/src/protocol.c:540-691 | one byte keeps the parser well formed; any event returns it to WaitSync; an overflow resets it; an accepted packet's length matches its payload and is at most 32 |
| PicoProtocol.FeedState | src/pico/src/protocol.c:720-732 | the parser stays well formed over any byte stream |
| PicoProtocol.FeedEvents | src/pico/src/protocol.c:720-732 | a byte stream yields exactly one event per byte |
| PicoProtocol.AcceptedIffCrcMatches | src/pico/src/protocol.c:591-676 | the last CRC byte yields a packet exactly when the received CRC equals the CRC of type, length, sequence and payload, and a CRC error otherwise |
| PicoProtocol.FeedCons | src/pico/src/protocol.c:720-732 | feeding a byte and then the rest is the same as feeding the whole stream |
| PicoProtocol.PayloadByte | src/pico/src/protocol.c:584-589 | a payload byte is stored and moves to the CRC state once the whole payload is in |
| PicoProtocol.PayloadHead | src/pico/src/protocol.c:584-589 | the first byte of the remaining payload is stored with no event |
| PicoProtocol.FeedPayload | src/pico/src/protocol.c:584-589 | feeding the remaining payload stores it all with no event and reaches the CRC state |
| PicoProtocol.HeaderSteps | src/pico/src/protocol.c:557-582 | sync, type, length and sequence bytes move the parser through its header states with no event |
| PicoProtocol.FeedHeader | src/pico/src/protocol.c:557-582 | feeding the four header bytes from WaitSync yields no event and stores type, length and sequence number |
| PicoProtocol.FeedTrailer | src/pico/src/protocol.c:591-678 | feeding the correct two CRC bytes yields the packet and returns to WaitSync |
| PicoProtocol.FrameParts | src/pico/src/protocol.c:333-353 | a frame is its header, its payload and then its CRC, low byte first |
| PicoProtocol.FrameIsAccepted | src/pico/src/protocol.c:310-691 | every frame send_packet builds, fed to an idle parser, yields exactly that packet on its last byte and no event before |
| PicoProtocol.FeedAfterHeader | src/pico/src/protocol.c:584-678 | after the header, the payload and CRC bytes of a frame yield the packet on the last byte |
| PicoProtocol.EmptyPayloadThenTrailer | src/pico/src/protocol.c:577-581 | with an empty payload the parser goes straight to the CRC bytes |
| PicoProtocol.FeedPayloadThenTrailer | src/pico/src/protocol.c:584-678 | a non-empty payload followed by its CRC yields the packet |
| PicoProtocol.CountActive | src/pico/src/protocol.c:100-140 | the number of active pending slots never exceeds the table size |
| PicoProtocol.CountActiveUpdate | src/pico/src/protocol.c:100-140 | replacing one slot changes the active count by the change in that slot alone |
| PicoProtocol.CountActiveFull | src/pico/src/protocol.c:100-124 | the active count equals the table size exactly when every slot is active |
| PicoProtocol.FirstFree | src/pico/src/protocol.c:102-103 | the slot add_pending_command takes is the first inactive one, or none when all are active |
| PicoProtocol.FirstWithSeq | src/pico/src/protocol.c:128-129 | the slot remove_pending_command frees is the first active one with that sequence number |
| PicoProtocol.Tracked | src/pico/src/protocol.c:100-124 | tracking a command adds one active slot when a slot is free and leaves a full table unchanged |
| PicoProtocol.Released | src/pico/src/protocol.c:127-140 | removing a sequence number deactivates one matching slot and nothing else, or changes nothing when no active slot matches |
| PicoProtocol.RetrySlotAsWritten | src/pico/src/protocol.c:190-222 | as written, an overdue slot with retries left gets its sent time set to now even when the resend is dropped |
| PicoProtocol.RetrySlotSpec | src/pico/src/protocol.c:184-237 | a slot not overdue is untouched; an overdue slot out of retries expires; an overdue slot with retries left is resent when the UART is ready; type, sequence and payload never change |
| PicoProtocol.DroppedRetryStaysDue | src/pico/src/protocol.c:216-222 | in the corrected model a resend the UART drops keeps the slot overdue so the next pass retries it |
| PicoProtocol.DroppedRetryDeferredAsWritten | src/pico/src/protocol.c:190-222 | a concrete slot whose dropped resend, as written, is no longer overdue a millisecond later, while the corrected model retries it |
| PicoProtocol.RetryCountBounded | src/pico/src/protocol.c:190-236 | the retry count never passes the limit, and a slot at the limit that is overdue expires |
| PicoProtocol.Contribution | src/pico/src/protocol.c:184-237 | one slot adds retries equal to dropped plus sent frames, at most one retry or expiry |
| PicoProtocol.Tally | src/pico/src/protocol.c:181-239 | across a scan, retries are dropped resends plus frames sent, and retries plus expiries are at most the number of slots |
| PicoProtocol.RetryAll | src/pico/src/protocol.c:184 | one retry pass visits every pending slot |
| PicoProtocol.RetryAllAt | src/pico/src/protocol.c:184-237 | slot j after the pass is the single-slot retry of slot j |
| PicoProtocol.ChargeStep | src/pico/src/protocol.c:184-237 | charging the scan one slot at a time gives the same counters as charging the whole prefix |
| PicoProtocol.SlotsOf | src/pico/src/protocol.c:181-239 | the table after a pass holds each slot's retried value in place |
| PicoProtocol.AdvanceShape | src/pico/src/protocol.c:556-681 | before the overflow check, no byte yields an overflow, and an event leaves room in the buffer |
| PicoProtocol.DeliveredAll | src/pico/src/protocol.c:662-663 | the packets handed to the callback are at most one per event |
| PicoProtocol.DeliveredSnoc | src/pico/src/protocol.c:720-731 | one more event delivers what the earlier ones did plus its own packet |
| PicoProtocol.FeedPrefixStep | src/pico/src/protocol.c:720-731 | consuming one more byte of the input advances the parser and the delivered packets by that byte's step |
| PicoProtocol.FeedSnoc | src/pico/src/protocol.c:720-731 | feeding a stream and then one byte is one step after the stream |
| PicoProtocol.QuietStats | src/pico/src/protocol.c:683-690 | a byte with no event changes no counter, and an overflow adds one packet error |
| PicoProtocol.BookAfter | src/pico/src/protocol.c:552-690 | every received byte counts one received byte, whatever its event |
| PicoProtocol.BookFeed | src/pico/src/protocol.c:720-731 | the bookkeeping after a byte stream has counted every byte of it |
| PicoProtocol.BookFeedSnoc | src/pico/src/protocol.c:720-731 | the bookkeeping after a stream and one more byte is one step, by that byte's event, after the stream |
| PicoProtocol.PassBook | src/pico/src/protocol.c:700-715 | after the timeout and the retry pass the table is the pass's, the pending count is its active count, and the last sequence number and handshake flag are unchanged |
| PicoProtocol.ProtocolCrc16 | src/pico/src/protocol.c:67-82 | protocol_crc16 over data[start..start+length] returns the CRC-16-CCITT of those bytes |
| PicoProtocol.WriteHeader | src/pico/src/protocol.c:333-348 | the buffer starts with the sync byte followed by type, length, sequence and payload |
| PicoProtocol.StoreLE16 | src/pico/src/protocol.c:352-353 | the CRC is stored low byte first and nothing before it changes |
| PicoProtocol.WriteTrailer | src/pico/src/protocol.c:350-353 | the CRC over type, length, sequence and payload is appended low byte first |
| PicoProtocol.BuildFrame | src/pico/src/protocol.c:330-353 | the bytes send_packet builds are exactly the frame of type, sequence and payload |
| PicoProtocol.ProtocolLink.constructor | src/pico/src/protocol.c:260-305 | after init the parser waits for sync, every counter is zero, no handshake, no backpressure, the last sequence is 0xFF and no slot is active |
| PicoProtocol.ProtocolLink.AddPendingCommand | src/pico/src/protocol.c:100-124 | tracking succeeds exactly when a slot is free (the count is below the table size); the table becomes the tracked table and the pending count its active count |
| PicoProtocol.ProtocolLink.RemovePendingCommand | src/pico/src/protocol.c:127-140 | the table becomes the released table and the pending count its active count |
| PicoProtocol.ProtocolLink.SendPacket | src/pico/src/protocol.c:310-377 | a too-long payload or an ACK-tracked command under backpressure is refused with nothing changed; otherwise the sequence number advances mod 256 and the frame is sent or dropped as the UART allows |
| PicoProtocol.ProtocolLink.SendNumbered | src/pico/src/protocol.c:337-376 | the sequence number advances mod 256; a busy UART drops the frame and counts it with the table unchanged; a ready one sends the frame under the old sequence number, counts the packet and its bytes, records the last sequence sent and tracks a command needing an ACK |
| PicoProtocol.ProtocolLink.Transmit | src/pico/src/protocol.c:355-376 | a busy UART drops the frame and counts it; otherwise the frame is sent, packets and bytes are counted, and a command needing an ACK is tracked |
| PicoProtocol.ProtocolLink.SetSlot | src/pico/src/protocol.c:104-110 | storing a slot changes that slot only, and the active count by that slot's change |
| PicoProtocol.ProtocolLink.Resend | src/pico/src/protocol.c:190-222 | in the corrected model a retry bumps the retry count and counts a retry; a ready UART sends the frame and moves the sent time to now, a busy one counts a drop and keeps the sent time (as written the sent time is already now, see Findings) |
| PicoProtocol.ProtocolLink.Expire | src/pico/src/protocol.c:224-236 | a slot out of retries is deactivated, an ACK timeout is counted and the pending count drops by one |
| PicoProtocol.ProtocolLink.RetryDropped | src/pico/src/protocol.c:193-221 | in the corrected model a resend the UART refuses bumps the retry count, keeps the sent time and counts one drop (as written line 194 already moved the sent time to now) |
| PicoProtocol.ProtocolLink.RetrySent | src/pico/src/protocol.c:193-223 | a resend the UART takes bumps the retry count, moves the sent time to now, writes the frame and counts its bytes |
| PicoProtocol.ProtocolLink.RetryResend | src/pico/src/protocol.c:190-223 | an overdue slot with retries left becomes its corrected retried value, and the counters and sent frames are charged with its contribution |
| PicoProtocol.ProtocolLink.RetryExpire | src/pico/src/protocol.c:224-236 | an overdue slot out of retries becomes its expired value, charged as one ACK timeout with the pending count down by one |
| PicoProtocol.ProtocolLink.RetryOne | src/pico/src/protocol.c:184-237 | the slot becomes its corrected retried value and the counters and sent frames are charged with that slot's contribution |
| PicoProtocol.ProtocolLink.ProcessPendingCommands | src/pico/src/protocol.c:181-239 | the table becomes the corrected retry pass over the old table, the counters are charged with the pass's tally and the pending count drops by the expiries |
| PicoProtocol.ProtocolLink.ScanOne | src/pico/src/protocol.c:184-238 | one iteration of the retry loop keeps the scanned prefix equal to the corrected pass and the rest untouched |
| PicoProtocol.ProtocolLink.Append | src/pico/src/protocol.c:565 | a received byte is appended to the receive buffer |
| PicoProtocol.ProtocolLink.VerifyCrc | src/pico/src/protocol.c:615-622 | the received CRC is checked against the CRC of the first 3 + length bytes |
| PicoProtocol.ProtocolLink.ConsumeByte | src/pico/src/protocol.c:556-681 | the parser switch moves the receive state to the model's next state and yields its event |
| PicoProtocol.ProtocolLink.HandleAccepted | src/pico/src/protocol.c:622-667 | an accepted packet records its sequence number, completes the handshake on MSG_HANDSHAKE, releases the acknowledged slot on MSG_ACK and is handed to the callback |
| PicoProtocol.ProtocolLink.CheckSequence | src/pico/src/protocol.c:626-636 | a sequence error is counted exactly when the sequence check applies and the sequence number is not the previous one plus one mod 256 |
| PicoProtocol.ProtocolLink.ProcessByte | src/pico/src/protocol.c:540-691 | with the bootloader active the parser is reset and nothing else happens; otherwise the byte steps the parser, stamps the time and applies the event's bookkeeping |
| PicoProtocol.ProtocolLink.ReceiveByte | src/pico/src/protocol.c:552-690 | a byte steps the parser, counts a received byte and applies its event's effect on slots, callback, sequence, handshake and counters |
| PicoProtocol.ProtocolLink.ReceiveBooked | src/pico/src/protocol.c:552-690 | a byte steps the parser, delivers its packet, and moves the pending table, counters, last sequence number and handshake flag by one step of the receive fold |
| PicoProtocol.ProtocolLink.Settle | src/pico/src/protocol.c:591-690 | the event's bookkeeping and the overflow check complete the byte's processing |
| PicoProtocol.ProtocolLink.ApplyEvent | src/pico/src/protocol.c:622-676 | the slots, delivered packets, sequence, handshake and counters change as the event requires |
| PicoProtocol.ProtocolLink.CheckOverflow | src/pico/src/protocol.c:683-690 | a full buffer resets the parser and counts one packet error; otherwise nothing changes |
| PicoProtocol.ProtocolLink.ReceiveAvailable | src/pico/src/protocol.c:717-732 | bytes up to the one where the bootloader takes over are fed to the parser; the parser ends as after that prefix, its packets are delivered, the bytes are counted, and the pending table, counters, last sequence number and handshake flag are the receive fold over that prefix |
| PicoProtocol.ProtocolLink.ReceiveNext | src/pico/src/protocol.c:720-731 | one iteration of the receive loop keeps the parser, the delivered packets and the bookkeeping equal to those of the fed prefix |
| PicoProtocol.ProtocolLink.ParserTimeout | src/pico/src/protocol.c:700-712 | a parser mid-frame whose last byte is older than the timeout is reset with one timeout error; otherwise nothing changes |
| PicoProtocol.ProtocolLink.ProtocolProcess | src/pico/src/protocol.c:693-733 | with the bootloader active nothing changes; otherwise the parser is reset when stale, the corrected retry pass sends its frames, and the parser, delivered packets, pending table, counters, last sequence number and handshake flag end as the receive fold over the consumed bytes, started from the state after the timeout and the pass |
| PicoProtocol.ProtocolLink.Housekeeping | src/pico/src/protocol.c:700-715 | a stale parser is reset; the pending table and counters become the corrected retry pass charged after one timeout error when the parser was stale; the last sequence number and handshake flag are kept; the pass's frames are sent |
| PicoProtocol.ProtocolLink.ResetState | src/pico/src/protocol.c:754-762 | the parser waits for sync, the byte time is zero and the receive buffer is cleared |
| PicoProtocol.ProtocolLink.ResetErrorCounters | src/pico/src/protocol.c:747-752 | the CRC, packet, timeout and sequence error counters are zeroed and nothing else changes |
| PicoProtocol.CountActiveZero | src/pico/src/protocol.c:292-293 | a table with no active slot has active count zero |
| Esp32PicoUart.Step | src/esp32/src/pico_uart.cpp:70-121 | one byte keeps the parser well formed and has at most one effect (a packet or one error); a packet is delivered only by the byte that completes a frame |
| Esp32PicoUart.FrameCountedOnce | src/esp32/src/pico_uart.cpp:106-121 | in the corrected model the byte that completes a frame has exactly one effect and leaves the parser waiting with an empty buffer |
| Esp32PicoUart.LongestFrameCountedTwiceAsWritten | src/esp32/src/pico_uart.cpp:106-121 | as written, the byte that completes a frame with length field 59 has two effects: the frame's own outcome and an overflow error |
| Esp32PicoUart.Length59FrameAsWritten | src/esp32/src/pico_uart.cpp:106-121 | a concrete 59-byte-payload frame whose last byte, as written, counts two effects |
| Esp32PicoUart.CorrectionOnlyClearsCompletedFrames | src/esp32/src/pico_uart.cpp:106-121 | the corrected parser delivers the same packets as written, differs only on the byte completing a 59-byte frame, and then by one error |
| Esp32PicoUart.ReceivedIffCrcMatches | src/esp32/src/pico_uart.cpp:123-158 | a completed frame is delivered exactly when its trailer holds the CRC of type, length, sequence and payload, and then as that packet |
| Esp32PicoUart.Feed | src/esp32/src/pico_uart.cpp:62-66 | the parser stays well formed over a byte stream, with at most one effect per byte |
| Esp32PicoUart.FeedSnoc | src/esp32/src/pico_uart.cpp:62-66 | feeding a stream and then one more byte is one step after the stream |
| Esp32PicoUart.FeedOne | src/esp32/src/pico_uart.cpp:62-66 | feeding one byte is one step |
| Esp32PicoUart.FeedFirst | src/esp32/src/pico_uart.cpp:62-66 | the step lemma carries over from the tail of a stream to the whole stream |
| Esp32PicoUart.FeedPrefixStep | src/esp32/src/pico_uart.cpp:62-66 | consuming one more byte of the input advances the parser by that byte's step |
| Esp32PicoUart.QuietCons | src/esp32/src/pico_uart.cpp:70-121 | a byte that neither completes a frame nor fills the buffer only moves the parser |
| Esp32PicoUart.FeedHeader | src/esp32/src/pico_uart.cpp:72-97 | the four header bytes move a waiting parser to the payload, or to the CRC for an empty payload, with no effect |
| Esp32PicoUart.HeaderAdvances | src/esp32/src/pico_uart.cpp:72-97 | sync, type, length and sequence bytes move through the header states one at a time |
| Esp32PicoUart.FeedPayload | src/esp32/src/pico_uart.cpp:99-104 | the rest of a payload is stored with no effect and leaves the parser at the CRC |
| Esp32PicoUart.FeedTrailer | src/esp32/src/pico_uart.cpp:106-112 | the two bytes of a matching CRC complete the packet and the parser waits again |
| Esp32PicoUart.FrameIsReceived | src/esp32/src/pico_uart.cpp:70-158 | every frame built for a payload of at most 32 bytes is received as exactly its packet with no error |
| Esp32PicoUart.AckProgress | src/esp32/src/pico_uart.cpp:320-340 | the matcher's index never passes the length of the 4-byte bootloader ACK |
| Esp32PicoUart.ContainsAckSnoc | src/esp32/src/pico_uart.cpp:320-340 | a stream that contains the ACK still contains it after one more byte |
| Esp32PicoUart.NewAckAtEnd | src/esp32/src/pico_uart.cpp:320-340 | a new occurrence of the ACK after one more byte ends at that byte |
| Esp32PicoUart.EndsWithSnoc | src/esp32/src/pico_uart.cpp:325-326 | a stream ends with the first m ACK bytes after one more byte exactly when it ended with m-1 and the byte is the next ACK byte |
| Esp32PicoUart.PrefixesDoNotOverlap | src/esp32/src/pico_uart.cpp:306 | since only the first ACK byte is 0xB0, a stream cannot end with two different non-empty proper prefixes of the ACK |
| Esp32PicoUart.MatcherInvariantHolds | src/esp32/src/pico_uart.cpp:320-340 | after any stream the matcher's index is the longest ACK prefix the stream ends with, or the full ACK once found |
| Esp32PicoUart.MatcherStep | src/esp32/src/pico_uart.cpp:325-340 | one more byte keeps the matcher invariant |
| Esp32PicoUart.MatchExtends | src/esp32/src/pico_uart.cpp:325-340 | the matcher's new index is a prefix of the ACK that the extended stream ends with |
| Esp32PicoUart.MatchLongest | src/esp32/src/pico_uart.cpp:325-340 | no longer ACK prefix ends the extended stream than the matcher's new index |
| Esp32PicoUart.MatcherFindsAck | src/esp32/src/pico_uart.cpp:299-349 | the matcher reaches the end of the ACK exactly when the ACK occurs in the stream |
| Esp32PicoUart.ChunkFrame | src/esp32/src/pico_uart.cpp:353-396 | a firmware chunk is an 8-byte header, the data and one checksum byte |
| Esp32PicoUart.ChunkFrameDecodes | src/esp32/src/pico_uart.cpp:353-396 | a chunk reads back as magic 0x55 0xAA, its 32-bit chunk number and 16-bit size little-endian, its data, and a data-plus-checksum XOR of zero |
| Esp32PicoUart.XorWithChecksum | src/esp32/src/pico_uart.cpp:371-375 | appending a block's XOR to it gives a block whose XOR is zero |
| Esp32PicoUart.ChunkChecksum | src/esp32/src/pico_uart.cpp:371-375 | the checksum loop returns the XOR of all data bytes |
| Esp32PicoUart.CalculateCrc | src/esp32/src/pico_uart.cpp:281-297 | calculateCRC returns the CRC-16-CCITT of the given range |
| Esp32PicoUart.AssembleFrame | src/esp32/src/pico_uart.cpp:160-190 | sendPacket's bytes are exactly the protocol frame for type, sequence and payload |
| Esp32PicoUart.CopyHeader | src/esp32/src/pico_uart.cpp:166-180 | the buffer holds the sync byte, the header and the payload |
| Esp32PicoUart.Accepted | src/esp32/src/pico_uart.cpp:186-190 | a UART with room for n bytes takes a prefix of the frame, all of it exactly when it has room |
| Esp32PicoUart.PicoUart.constructor | src/esp32/src/pico_uart.cpp:4-17 | a new link waits for sync with every counter zero, not connected, not paused and no backoff |
| Esp32PicoUart.PicoUart.Append | src/esp32/src/pico_uart.cpp:80 | a received byte is appended to the receive buffer |
| Esp32PicoUart.PicoUart.ProcessPacket | src/esp32/src/pico_uart.cpp:123-158 | a frame with a matching CRC is delivered, counted and time-stamped; one without counts a packet error |
| Esp32PicoUart.PicoUart.ReadPacket | src/esp32/src/pico_uart.cpp:125-142 | the extracted packet is the frame's packet when the CRC matches and none otherwise |
| Esp32PicoUart.PicoUart.ProcessByte | src/esp32/src/pico_uart.cpp:70-121 | a byte moves the parser to its corrected step and adds that step's packets and errors to the counters |
| Esp32PicoUart.PicoUart.ConsumeByte | src/esp32/src/pico_uart.cpp:71-114 | a byte that does not complete a frame only moves the parser; one that does processes the frame |
| Esp32PicoUart.PicoUart.CrcByte | src/esp32/src/pico_uart.cpp:106-112 | a completed frame is processed and the parser waits again |
| Esp32PicoUart.PicoUart.Loop | src/esp32/src/pico_uart.cpp:42-68 | while paused nothing changes; otherwise connected means a packet arrived less than 2000 ms ago, and the available bytes are fed through the parser |
| Esp32PicoUart.PicoUart.ReceiveNext | src/esp32/src/pico_uart.cpp:63-66 | one iteration of the read loop keeps the parser and counters equal to the fed prefix |
| Esp32PicoUart.PicoUart.SendPacket | src/esp32/src/pico_uart.cpp:160-191 | a payload above 32 bytes is refused with nothing sent; otherwise the sequence number advances mod 256 and the call succeeds exactly when the UART takes the whole frame |
| Esp32PicoUart.PicoUart.SendCommand | src/esp32/src/pico_uart.cpp:198-212 | while the NACK backoff is in force the command is deferred with nothing sent; otherwise the backoff is cleared and the command is sent |
| Esp32PicoUart.PicoUart.SetBackoffUntil | src/esp32/include/pico_uart.h:69 | the backoff deadline becomes the given time |
| Esp32PicoUart.PicoUart.Pause | src/esp32/include/pico_uart.h:49 | the link is paused |
| Esp32PicoUart.PicoUart.Resume | src/esp32/include/pico_uart.h:50 | the link is resumed and the parser waits for sync, the index left as it was |
| Esp32PicoUart.PicoUart.ClearConnectionState | src/esp32/include/pico_uart.h:66 | the link is disconnected and the last packet time is cleared |
| Esp32PicoUart.PicoUart.WaitForBootloaderAck | src/esp32/src/pico_uart.cpp:299-349 | the wait succeeds exactly when the ACK occurs in the arriving bytes, stopping right after its first occurrence; the parser state is restored |
| Esp32PicoUart.PicoUart.StreamFirmwareChunk | src/esp32/src/pico_uart.cpp:351-402 | a chunk above 256 bytes is refused; otherwise the chunk frame is written and the data length is returned only when the UART takes it all |
| Esp32PicoUart.PicoUart.StreamBody | src/esp32/src/pico_uart.cpp:385-401 | the data and checksum go out as far as the UART takes them, and the chunk length is reported only when all of them fit |
| Esp32PicoUart.PrefixAck | src/esp32/src/pico_uart.cpp:320-333 | an input whose prefix contains the ACK contains it too |
| Esp32ProtocolHandler.Counted | src/esp32/src/pico_protocol_handler.cpp:136-156 | the NACK count becomes 0 exactly when a NACK arrives within 5000 ms of the previous one with the count already at 10; the last NACK time becomes now |
| Esp32ProtocolHandler.BackoffMs | src/esp32/src/pico_protocol_handler.cpp:161 | the backoff is 100 ms per counted NACK, capped at 500 ms, and at least 100 ms once a NACK is counted |
| Esp32ProtocolHandler.UpdateBackoff | src/esp32/src/pico_protocol_handler.cpp:136-163 | in the corrected model every NACK defers commands by between 100 and 500 ms from now, measured on the 32-bit clock |
| Esp32ProtocolHandler.WrapAdd | src/esp32/src/pico_protocol_handler.cpp:162 | adding a delay of at most 500 ms to the 32-bit clock and subtracting now gives the delay back |
| Esp32ProtocolHandler.OverloadClearsBackoffAsWritten | src/esp32/src/pico_protocol_handler.cpp:145-162 | as written, the eleventh NACK of a burst resets the count to 0 and sets the backoff deadline to now, so no command is deferred |
| Esp32ProtocolHandler.UpdateBackoffAsWritten | src/esp32/src/pico_protocol_handler.cpp:136-163 | as written, the update agrees with the corrected one except for the deadline, which is at most 500 ms away and is now itself when the count was reset |
| Esp32ProtocolHandler.OverloadKeepsBackoff | src/esp32/src/pico_protocol_handler.cpp:136-163 | the corrected update counts as written, keeps the 500 ms cap on the overload NACK and agrees with the source everywhere else |
| Esp32ProtocolHandler.NackSeries | src/esp32/src/pico_protocol_handler.cpp:136-163 | a series of NACKs keeps the NACK state well formed |
| Esp32ProtocolHandler.BurstBackoff | src/esp32/src/pico_protocol_handler.cpp:136-163 | from no NACKs, a burst of up to ten NACKs within 5000 ms of each other counts each of them and sets a backoff of 100 ms times the count after the last |
| Esp32ProtocolHandler.BurstStep | src/esp32/src/pico_protocol_handler.cpp:141-162 | one more NACK in a burst extends the burst's state by one count |
| Esp32ProtocolHandler.NackInBurst | src/esp32/src/pico_protocol_handler.cpp:141-162 | a NACK within 5000 ms of the previous one, below the overload count, adds one to the count and backs off 100 ms times the new count |
| Esp32ProtocolHandler.QuietPeriodRestarts | src/esp32/src/pico_protocol_handler.cpp:136-162 | the first NACK, or one after 5000 quiet milliseconds, restarts the count at 1 with a 100 ms backoff |
| Esp32ProtocolHandler.EncodeHandshake | src/esp32/src/pico_protocol_handler.cpp:122-129 | the handshake payload is six bytes |
| Esp32ProtocolHandler.ParseHandshake | src/esp32/src/pico_protocol_handler.cpp:104-120 | a packet shorter than 6 bytes yields no handshake; otherwise the 16-bit ACK timeout is read little-endian |
| Esp32ProtocolHandler.HandshakeRoundTrip | src/esp32/src/pico_protocol_handler.cpp:104-129 | a handshake encoded and sent in a packet is read back unchanged |
| Esp32ProtocolHandler.Esp32HandshakeBytes | src/esp32/src/pico_protocol_handler.cpp:122-129 | the ESP32's answer is the bytes 1, 1, 0, 3, 0xE8, 0x03 (version 1.1, no capabilities, 3 retries, 1000 ms) |
| Esp32ProtocolHandler.PicoProtocolHandler.constructor | src/esp32/src/pico_protocol_handler.cpp:17-25 | a new handler has no UART, no NACK count, no last NACK time and no backoff |
| Esp32ProtocolHandler.PicoProtocolHandler.Begin | src/esp32/src/pico_protocol_handler.cpp:27-32 | begin stores the UART |
| Esp32ProtocolHandler.PicoProtocolHandler.UpdateBackoffAt | src/esp32/src/pico_protocol_handler.cpp:136-163 | the NACK state becomes the corrected update of the old state at now |
| Esp32ProtocolHandler.PicoProtocolHandler.HandleNack | src/esp32/src/pico_protocol_handler.cpp:81-102 | a NACK shorter than 4 bytes is ignored; otherwise the backoff is updated and handed to the UART |
| Esp32ProtocolHandler.PicoProtocolHandler.HandleHandshake | src/esp32/src/pico_protocol_handler.cpp:104-134 | a handshake shorter than 6 bytes is ignored; otherwise the ESP32's handshake frame is sent on the UART |
| Esp32ProtocolHandler.PicoProtocolHandler.HandlePacket | src/esp32/src/pico_protocol_handler.cpp:34-79 | a handshake and a NACK go to their handlers; every other packet type leaves the handler's state and the UART unchanged |
| ClassBTypes.Code | src/pico/include/class_b.h:34-44 | each result's number is its position in the C enum, from PASS = 0 to NOT_INITIALIZED = 8 |
| ClassBTypes.FromCode | src/pico/include/class_b.h:34-44 | a number 0..8 names the result at that position, any other number none |
| ClassBTypes.CodeRoundTrip | src/pico/include/class_b.h:34-44 | a result's number reads back as that result, and a number that names a result is that result's number |
| ClassBTypes.ResultText | src/pico/src/class_b.c:679-692 | each result code has its text and any other number gives "Unknown error" |
| ClassBTypes.ResultTextDistinct | src/pico/src/class_b.c:679-692 | distinct results have distinct texts |
| ClassBCrc32.Crc32FromAppend | src/pico/src/class_b.c:133-141 | feeding a then b gives the same register as feeding a + b, so consecutive chunks give the CRC of their concatenation |
| ClassBCrc32.CheckStepsA | src/pico/src/class_b.c:87-141 | the first three bytes of "123456789" step the register to the traced values |
| ClassBCrc32.CheckStepsB | src/pico/src/class_b.c:87-141 | bytes four to six of "123456789" step the register to the traced values |
| ClassBCrc32.CheckStepsC | src/pico/src/class_b.c:87-141 | bytes seven to nine of "123456789" step the register to the traced values |
| ClassBCrc32.Crc32FromTrace | src/pico/src/class_b.c:133-141 | a register trace that agrees with the table step at every byte ends at the CRC register |
| ClassBCrc32.Crc32CheckValue | src/pico/src/class_b.c:87-141 | the corrected table gives the standard CRC-32 check value 0xCBF43926 for "123456789", and leaves the register unchanged on no bytes |
| ClassBCrc32.Crc32Update | src/pico/src/class_b.c:133-141 | class_b_crc32 returns the register after feeding the bytes through the table from the initial value, without the final XOR |
| ClassBCrc32.Entry245AsWritten | src/pico/src/class_b.c:128 | entry 245 of the table as written differs from the polynomial's entry in bit 5, so a single newline byte after the initial register gives a CRC the standard table does not |
| ClassBCrc32.AsWrittenLastRowsAgree | src/pico/src/class_b.c:127-130 | the table as written agrees with the polynomial's table on rows 30 and 31 except at entry 245 |
| ClassBMarch.FaultFreeHolds | src/pico/src/class_b.c:158-212 | a cell without stuck bits reads back what was written |
| ClassBMarch.StuckBitShows | src/pico/src/class_b.c:158-212 | a stuck bit makes a cell read differently from either a pattern or its inverse |
| ClassBMarch.FaultFreeAllHold | src/pico/src/class_b.c:158-212 | every cell of fault-free memory reads back what was written |
| ClassBMarch.WriteAll | src/pico/src/class_b.c:166-169 | step 1 writes the pattern to every cell, through the fault model, in ascending order |
| ClassBMarch.ReadWriteUp | src/pico/src/class_b.c:171-185 | an ascending element fails at the first cell that does not read the expected value and otherwise writes the new value to every cell |
| ClassBMarch.ReadWriteDown | src/pico/src/class_b.c:187-201 | a descending element fails at the first cell, from the top, that does not read the expected value and otherwise writes the new value to every cell |
| ClassBMarch.VerifyAll | src/pico/src/class_b.c:203-208 | the final element passes exactly when every cell reads the pattern, and writes nothing |
| ClassBMarch.MarchPattern | src/pico/src/class_b.c:163-208 | the six elements for one pattern pass exactly when every read-back matched, and leave the pattern in every cell |
| ClassBMarch.MarchC | src/pico/src/class_b.c:158-212 | march_c_test passes exactly when every read-back of every element matched for the four patterns, and then the buffer holds the last pattern |
| ClassBMarch.Permanent | src/pico/src/class_b.c:158-212 | a permanent fault is the same fault set in every phase |
| ClassBMarch.FaultFreePasses | src/pico/src/class_b.c:158-212 | fault-free memory passes the March test |
| ClassBMarch.PermanentFaultDetected | src/pico/src/class_b.c:158-212 | a permanent stuck bit anywhere in the buffer makes the March test fail |
| ClassBMarch.FaultFreeFinalPattern | src/pico/src/class_b.c:158-212 | on fault-free memory the test passes and leaves 0x55555555 in every word |
| ClassB.Record | src/pico/src/class_b.c:214-478 | a pass bumps that test's counter (the stack and program counter tests have none); a failure bumps the failure count and records the result |
| ClassB.FirstFailure | src/pico/src/class_b.c:555-601 | a sequence of tests returns its first failure, or PASS |
| ClassB.RunAll | src/pico/src/class_b.c:555-601 | running tests in order stops at the first failure |
| ClassB.FirstFailurePasses | src/pico/src/class_b.c:555-601 | a sequence passes exactly when every test in it passes |
| ClassB.RunAllRecordsFailure | src/pico/src/class_b.c:555-601 | after a failing sequence the last result is its first failure and the failure count went up once; after a passing sequence both are unchanged |
| ClassB.RunsStep | src/pico/src/class_b.c:555-601 | one more test run extends the status of a prefix |
| ClassB.RunAllAppend | src/pico/src/class_b.c:555-601 | running a then b stops in a when a fails and otherwise continues with b |
| ClassB.Int32 | src/pico/src/class_b.c:448-449 | C int arithmetic on the Pico wraps to 32-bit two's complement |
| ClassB.ClockBoundsAsWritten | src/pico/src/class_b.c:443-461 | as written, 125000000 * 95 and 125000000 * 105 overflow a 32-bit int, giving bounds 4284868278 and 2400981, so every clock frequency fails |
| ClassB.ClockMinAsWritten | src/pico/src/class_b.c:448 | as written, the lower bound lies above the intended upper bound |
| ClassB.ClockMaxAsWritten | src/pico/src/class_b.c:449 | as written, the upper bound lies below the intended lower bound |
| ClassB.ClockTolerance | src/pico/src/class_b.c:443-461 | in the corrected model a clock passes exactly when it is within 5% of 125 MHz |
| ClassB.ShadowUpdate | src/pico/src/class_b.c:364-374 | a pin below 32 becomes an output expected at the driven level and the shadow is valid; other pins keep their entries; pins from 32 up are ignored |
| ClassB.IoDetectsMismatch | src/pico/src/class_b.c:376-437 | a relay driven through the shadow that reads back the other level fails the I/O test |
| ClassB.IoPassesWhenOutputsMatch | src/pico/src/class_b.c:376-437 | relays that all read back as driven pass the I/O test |
| ClassB.PcOrderDetected | src/pico/src/class_b.c:485-518 | of all orders of the three marker calls, only 1, 2, 3 reaches the final marker |
| ClassB.PcSkipDetected | src/pico/src/class_b.c:485-518 | skipping a marker call never reaches the final marker |
| ClassB.NextScan | src/pico/src/class_b.c:236-262 | a new pass starts when none is in progress, at most one chunk is fed, and the pass completes with the final XOR once the whole flash is read |
| ClassB.ChunkStep | src/pico/src/class_b.c:246-250 | feeding the next n flash bytes to the CRC of the first off bytes gives the CRC of the first off + n bytes |
| ClassB.ScanTracksFlash | src/pico/src/class_b.c:236-262 | while the flash is unchanged, every call keeps the scan in step with it, and a completed pass yields the CRC-32 of the whole flash |
| ClassB.IntactFlashPasses | src/pico/src/class_b.c:264-286 | unchanged flash never fails the flash test against the reference taken from it |
| ClassB.CycleAfter | src/pico/src/class_b.c:614 | the cycle counter wraps at 2^32 |
| ClassB.RamTestEveryTenCycles | src/pico/src/class_b.c:619-625 | from any cycle count, at least one of the next ten cycles runs the RAM test, also across the 2^32 wrap-around |
| ClassB.CpuTestEveryTenCycles | src/pico/src/class_b.c:627-633 | from any cycle count, at least one of the next ten cycles runs the CPU test, also across the 2^32 wrap-around |
| ClassB.TestsStaggered | src/pico/src/class_b.c:617-641 | the RAM, CPU and I/O tests never fall on the same cycle |
| ClassB.ClassBMonitor.constructor | src/pico/src/class_b.c:39-65 | before init, every counter is zero, the monitor is not initialized and the canaries hold their value |
| ClassB.ClassBMonitor.TestRam | src/pico/src/class_b.c:214-227 | the RAM test runs March C- over the dedicated buffer and records its result |
| ClassB.ClassBMonitor.CrcFlashIncremental | src/pico/src/class_b.c:236-262 | the scan state becomes the next scan of the flash and the completed CRC, if any, is returned |
| ClassB.ClassBMonitor.BeginPass | src/pico/src/class_b.c:237-242 | a scan in progress is kept; otherwise a new pass starts at offset 0 with the running CRC at its initial value |
| ClassB.ClassBMonitor.TestFlash | src/pico/src/class_b.c:264-286 | one chunk is scanned; a completed pass is stored and compared with the reference, failing on a mismatch |
| ClassB.ClassBMonitor.TestCpuRegisters | src/pico/src/class_b.c:299-354 | the CPU register test records its result |
| ClassB.ClassBMonitor.UpdateGpioShadow | src/pico/src/class_b.c:364-374 | the shadow becomes its update for the pin and level |
| ClassB.ClassBMonitor.TestIo | src/pico/src/class_b.c:376-437 | the three relays are read back against the shadow and the result is recorded |
| ClassB.ClassBMonitor.TestClock | src/pico/src/class_b.c:443-461 | in the corrected model the clock passes exactly when it is within 5% of 125 MHz, and the result is recorded |
| ClassB.ClassBMonitor.TestStack | src/pico/src/class_b.c:467-478 | the stack test passes exactly when both canaries hold their value |
| ClassB.ClassBMonitor.ProgramCounterTest | src/pico/src/class_b.c:501-518 | the program counter test passes exactly when the markers were reached in order |
| ClassB.ClassBMonitor.Init | src/pico/src/class_b.c:524-549 | init zeroes the status and shadow, sets the canaries, takes the reference CRC of the whole flash and marks the monitor initialized |
| ClassB.ClassBMonitor.StartupTest | src/pico/src/class_b.c:555-601 | the startup test runs CPU, RAM, clock, stack and program counter in order and returns the first failure |
| ClassB.ClassBMonitor.PeriodicFirst | src/pico/src/class_b.c:619-641 | the RAM, CPU and I/O tests run on their cycles, stopping at a failure |
| ClassB.ClassBMonitor.PeriodicLater | src/pico/src/class_b.c:643-655 | the stack test runs every cycle, then the clock test on its cycles, stopping at a failure |
| ClassB.ClassBMonitor.Stages | src/pico/src/class_b.c:617-666 | the staggered tests of one cycle, after the counter and time stamp are updated, give the cycle the periodic-test specification describes |
| ClassB.ClassBMonitor.FlashStage | src/pico/src/class_b.c:656-666 | once the earlier stages passed, the flash chunk on every tenth cycle completes the specified cycle |
| ClassB.ClassBMonitor.PeriodicTest | src/pico/src/class_b.c:607-667 | before init the call returns NOT_INITIALIZED and changes nothing; otherwise the cycle counter advances and one staggered cycle runs |
| ClassB.ClassBMonitor.GetStatus | src/pico/src/class_b.c:673-677 | get_status returns the status record unchanged |
| ClassB.ClassBMonitor.IsFailed | src/pico/src/class_b.c:694-696 | the monitor is failed exactly when the last result is not PASS |
| ClassB.ClassBMonitor.Reset | src/pico/src/class_b.c:698-719 | reset clears the failure only when the CPU, RAM and stack tests pass again |
| Modbus.ShiftBitCases | src/pico/src/power_meter.c:180-187 | one shift of the source's bit loop: XOR with the reflected polynomial 0xA001 when the low bit is set, a plain shift otherwise |
| Modbus.EightShifts | src/pico/src/power_meter.c:178-188 | the inner loop of eight shifts is one byte step of CRC-16/MODBUS |
| Modbus.ModbusCrcValue | src/pico/src/power_meter.c:176-191 | the CRC is a 16-bit value |
| Modbus.CrcFromAppend | src/pico/src/power_meter.c:176-191 | feeding a then b gives the CRC of a + b |
| Modbus.ModbusCheckValue | src/pico/src/power_meter.c:176-191 | the CRC of no bytes is the 0xFFFF seed and the CRC of "123456789" is 0x4B37, the CRC-16/MODBUS check value |
| Modbus.ModbusCrc16 | src/pico/src/power_meter.c:176-191 | modbus_crc16 returns the CRC-16/MODBUS of the first length bytes |
| Modbus.RequestBody | src/pico/src/power_meter.c:204-210 | the request body is six bytes |
| Modbus.RequestFrame | src/pico/src/power_meter.c:204-215 | the request is eight bytes |
| Modbus.RequestFrameDecodes | src/pico/src/power_meter.c:202-223 | a request reads back as its address, function code, big-endian first register and register count, followed by the CRC of those six bytes, low byte first |
| Modbus.WriteRequestBody | src/pico/src/power_meter.c:205-210 | the first six bytes of the request buffer are the request body |
| Modbus.BuildRequest | src/pico/src/power_meter.c:202-223 | the eight bytes written to the UART are the request frame |
| Modbus.ExpectedLengthWraps | src/pico/src/power_meter.c:236-237 | a declared byte count of 251 or more wraps the 8-bit expected length, so the five-byte prefix 01 04 FB 00 00 looks complete as written though it is not |
| Modbus.CompleteAsWritten | src/pico/src/power_meter.c:236-237 | as written, a response counts as complete exactly when five bytes arrived and either the declared byte count is 251 or more or the intended test holds |
| Modbus.ReceiveFrom | src/pico/src/power_meter.c:228-248 | the receive loop never reads more bytes than arrive or than the buffer holds, nor goes back |
| Modbus.Receive | src/pico/src/power_meter.c:225-252 | a receive reads at most the arriving bytes and at most the buffer size |
| Modbus.ReceiveStopsAtFrameEnd | src/pico/src/power_meter.c:234-239 | a successful receive stops at the first complete prefix, exactly the declared byte count plus five bytes |
| Modbus.ReceiveCompletes | src/pico/src/power_meter.c:228-248 | a whole response that fits the buffer completes the receive |
| Modbus.ReceiveResponse | src/pico/src/power_meter.c:225-252 | the result and bytes read are the receive model's, and the buffer holds the bytes read followed by its old contents |
| Modbus.Settled | src/pico/src/power_meter.c:230-231 | the buffer after n bytes holds those bytes followed by its old contents |
| Modbus.ResponseValidIff | src/pico/src/power_meter.c:254-268 | a response is valid exactly when it has the expected address and function code and ends with the CRC of the rest, low byte first |
| Modbus.VerifyResponse | src/pico/src/power_meter.c:254-268 | verification succeeds exactly when the response is at least five bytes and valid |
| Modbus.ExtractU16 | src/pico/src/power_meter.c:270-272 | extract_uint16 reads two bytes big-endian |
| Modbus.ExtractU32 | src/pico/src/power_meter.c:274-279 | extract_uint32 reads four bytes big-endian |
| Modbus.Registers | src/pico/src/power_meter.c:281-339 | a response carrying n registers has 2n data bytes |
| Modbus.RegisterAt | src/pico/src/power_meter.c:281-339 | register k sits big-endian at byte 2k of the data |
| Modbus.ExtractRegister | src/pico/src/power_meter.c:270-339 | reading register k back out of encoded data gives its value |
| PowerMeter.ReceivedFrameFits | src/pico/src/power_meter.c:225-252 | a frame the receive loop accepts into the 128-byte buffer has at least five bytes, is exactly its byte count plus five, and declares a byte count that fits |
| PowerMeter.ParseResponse | src/pico/src/power_meter.c:281-340 | parse_response fails only on a response shorter than five bytes |
| PowerMeter.FieldFromRegisters | src/pico/src/power_meter.c:290-330 | a 16-bit field reads its register when the data reach it and is 0 when they do not |
| PowerMeter.EnergyFromRegisters | src/pico/src/power_meter.c:290-330 | a 32-bit energy field combines its register as the high word with the next as the low word, and is 0 unless the data reach both |
| PowerMeter.PollOutcome | src/pico/src/power_meter.c:404-431 | an exchange succeeds only when the receive completed with a valid response; a parse error never occurs |
| PowerMeter.ValidFrameIsRead | src/pico/src/power_meter.c:404-431 | a meter that answers with a valid, complete frame that fits the buffer is read successfully |
| PowerMeter.Detect | src/pico/src/power_meter.c:464-538 | detection from meter i picks a meter at or after i in the table, if any |
| PowerMeter.DetectFindsFirst | src/pico/src/power_meter.c:464-538 | detection picks a meter whose exchange gave a reading with a voltage between 50 and 300 V, and every meter before it was refused |
| PowerMeter.Poll | src/pico/src/power_meter.c:404-431 | one exchange sends the meter's request frame and yields the exchange outcome |
| PowerMeter.Probe | src/pico/src/power_meter.c:464-538 | the detection loop finds the same meter as the detection function |
| PowerMeter.PowerMeterDriver.constructor | src/pico/src/power_meter.c:160-170 | before init the driver has no meter, no reading, no error and a disabled configuration |
| PowerMeter.PowerMeterDriver.Update | src/pico/src/power_meter.c:394-438 | before a successful init nothing is sent and nothing changes; otherwise the meter's request is sent and a successful exchange becomes the reading with its time, an error sets the error text |
| PowerMeter.PowerMeterDriver.GetReading | src/pico/src/power_meter.c:440-451 | a reading is returned exactly when it is valid and less than 5 s old, and then it is the last reading |
| PowerMeter.PowerMeterDriver.IsConnected | src/pico/src/power_meter.c:453-458 | the meter is connected exactly when initialized and the last success is less than 5 s old |
| PowerMeter.PowerMeterDriver.GetName | src/pico/src/power_meter.c:460-462 | the name is the current meter's name, or "None" |
| PowerMeter.PowerMeterDriver.GetError | src/pico/src/power_meter.c:564-566 | the error is returned exactly when the error text is not empty |
| PowerMeter.PowerMeterDriver.AutoDetect | src/pico/src/power_meter.c:464-539 | detection succeeds exactly when some meter is accepted, and then the first accepted meter is selected, enabled and its reading stored |
| PowerMeter.PowerMeterDriver.Init | src/pico/src/power_meter.c:346-392 | a disabled configuration succeeds with nothing to do; a table index selects that meter; the auto-detect index runs detection; any other index fails |
| MsgPackFormat.StrHeader | src/esp32/src/msgpack_helper.cpp:29-69 | a string header is one to five bytes |
| MsgPackFormat.CountHeader | src/esp32/src/msgpack_helper.cpp:215-240 | a container header is one to five bytes |
| MsgPackFormat.MapHeader | src/esp32/src/msgpack_helper.cpp:215-240 | a map header is one to five bytes |
| MsgPackFormat.ArrayHeader | src/esp32/src/msgpack_helper.cpp:260-285 | an array header is one to five bytes |
| MsgPackFormat.EncodeInt32 | src/esp32/src/msgpack_helper.cpp:84-118 | a signed integer takes one to five bytes |
| MsgPackFormat.EncodeUint32 | src/esp32/src/msgpack_helper.cpp:121-152 | an unsigned integer takes one to five bytes |
| MsgPackFormat.EncodeInteger | src/esp32/src/msgpack_helper.cpp:84-152 | an integer takes one to five bytes, signed when it fits int and unsigned otherwise |
| MsgPackFormat.Encode | src/esp32/src/msgpack_helper.cpp:71-201 | every value's encoding is at least one byte |
| MsgPackFormat.PresentFrom | src/esp32/src/msgpack_helper.cpp:207-212 | the count of non-null members from lo on is at most the number of members there |
| MsgPackFormat.DroppedFrom | src/esp32/src/msgpack_helper.cpp:243-250 | what a reader sees of an object's members from lo on is exactly the non-null members, in order |
| MsgPackFormat.DroppedItemsFrom | src/esp32/src/msgpack_helper.cpp:288-290 | what a reader sees of an array keeps every item |
| MsgPackFormat.StrLength | src/esp32/src/msgpack_helper.cpp:29-69 | a reference decoder for string headers consumes at least one byte and stays within the input |
| MsgPackFormat.DecodeStr | src/esp32/src/msgpack_helper.cpp:29-69 | the reference string decoder consumes at least one byte and stays within the input |
| MsgPackFormat.DecodeCount | src/esp32/src/msgpack_helper.cpp:215-285 | the reference container-header decoder consumes at least one byte and stays within the input |
| MsgPackFormat.DecodeScalar | src/esp32/src/msgpack_helper.cpp:74-152 | the reference decoder for nil, booleans and integers consumes at least one byte and stays within the input |
| MsgPackFormat.DecodeValue | src/esp32/src/msgpack_helper.cpp:71-201 | the reference value decoder consumes at least one byte and stays within the input |
| MsgPackFormat.DecodeObject | src/esp32/src/msgpack_helper.cpp:203-253 | the reference map decoder consumes at least one byte and stays within the input |
| MsgPackFormat.DecodeArray | src/esp32/src/msgpack_helper.cpp:255-293 | the reference array decoder consumes at least one byte and stays within the input |
| MsgPackFormat.DecodePair | src/esp32/src/msgpack_helper.cpp:243-250 | the reference pair decoder consumes at least one byte and stays within the input |
| MsgPackFormat.DecodeMembers | src/esp32/src/msgpack_helper.cpp:243-250 | the reference decoder of n pairs stays within the input |
| MsgPackFormat.DecodeItems | src/esp32/src/msgpack_helper.cpp:288-290 | the reference decoder of n values stays within the input |
| MsgPackFormat.StrRoundTrip | src/esp32/src/msgpack_helper.cpp:29-69 | a string encoded anywhere in a buffer decodes back to itself and the position after it |
| MsgPackFormat.CountRoundTrip | src/esp32/src/msgpack_helper.cpp:215-285 | a container header encoded anywhere decodes back to its count |
| MsgPackFormat.Int16RoundTrip | src/esp32/src/msgpack_helper.cpp:96-105 | an int16 outside the int8 range decodes back from its three bytes |
| MsgPackFormat.Int32WideRoundTrip | src/esp32/src/msgpack_helper.cpp:106-117 | an int32 outside the int16 range decodes back from its five bytes |
| MsgPackFormat.Uint32RoundTrip | src/esp32/src/msgpack_helper.cpp:140-151 | an unsigned value above INT32_MAX decodes back from its five bytes |
| MsgPackFormat.IntegerRoundTrip | src/esp32/src/msgpack_helper.cpp:84-152 | every int32 or uint32 decodes back from its encoding |
| MsgPackFormat.RoundTrip | src/esp32/src/msgpack_helper.cpp:71-293 | every value encoded anywhere in a buffer decodes back to what a reader sees of it (null members dropped) and the position after it |
| MsgPackFormat.ObjectRoundTrip | src/esp32/src/msgpack_helper.cpp:203-253 | an object decodes back to its non-null members |
| MsgPackFormat.ArrayRoundTrip | src/esp32/src/msgpack_helper.cpp:255-293 | an array decodes back to all its items |
| MsgPackFormat.MembersSkipNull | src/esp32/src/msgpack_helper.cpp:207-250 | a null member adds nothing to the encoding, the count or what a reader sees |
| MsgPackFormat.MembersUnfold | src/esp32/src/msgpack_helper.cpp:243-250 | a non-null member contributes its key and value, one to the count and one pair to what a reader sees |
| MsgPackFormat.PairRoundTrip | src/esp32/src/msgpack_helper.cpp:243-250 | a present member decodes back as one key/value pair |
| MsgPackFormat.MembersStep | src/esp32/src/msgpack_helper.cpp:243-250 | one pair then n more pairs decode as n + 1 pairs |
| MsgPackFormat.MembersRoundTrip | src/esp32/src/msgpack_helper.cpp:243-250 | the members from lo on decode back as the counted pairs |
| MsgPackFormat.NullMemberRoundTrip | src/esp32/src/msgpack_helper.cpp:243-250 | the member round trip holds past a null member |
| MsgPackFormat.PresentMemberRoundTrip | src/esp32/src/msgpack_helper.cpp:243-250 | the member round trip holds past a present member |
| MsgPackFormat.ItemsRoundTrip | src/esp32/src/msgpack_helper.cpp:288-290 | the items from lo on decode back in order |
| MsgPackFormat.Decodes | src/esp32/src/msgpack_helper.cpp:295-319 | a whole encoding decodes to what a reader sees of the value, taking every byte |
| MsgPackWriter.Reversed | src/esp32/src/msgpack_helper.cpp:224-238 | reversing keeps the length |
| MsgPackWriter.ReversedAppend | src/esp32/src/msgpack_helper.cpp:234-238 | reversing a + b gives reversed b then reversed a |
| MsgPackWriter.SwappedLE16 | src/esp32/src/msgpack_helper.cpp:221-227 | a 16-bit word stored little-endian and swapped is its big-endian form |
| MsgPackWriter.SwappedLE32 | src/esp32/src/msgpack_helper.cpp:231-238 | a 32-bit word stored little-endian and swapped is its big-endian form |
| MsgPackWriter.WroteThen | src/esp32/src/msgpack_helper.cpp:12-27 | two adjacent writes are one write of both |
| MsgPackWriter.Sequenced | src/esp32/src/msgpack_helper.cpp:12-27 | a successful write followed by another is the write of both |
| MsgPackWriter.Overflow | src/esp32/src/msgpack_helper.cpp:12-19 | a failed write stays failed for anything longer starting at the same place |
| MsgPackWriter.Overwrote | src/esp32/src/msgpack_helper.cpp:224-238 | writing over part of what was just written replaces that part |
| MsgPackWriter.Regroup | src/esp32/src/msgpack_helper.cpp:243-250 | moving the next piece from what is left to what is done keeps the output |
| MsgPackWriter.WriteBytes | src/esp32/src/msgpack_helper.cpp:12-19 | the data is copied at pos when it fits; otherwise nothing is written and the offset stays |
| MsgPackWriter.WriteByte | src/esp32/src/msgpack_helper.cpp:21-27 | one byte is stored at pos when there is room; otherwise nothing is written |
| MsgPackWriter.ToBigEndian | src/esp32/src/msgpack_helper.cpp:224-238 | the word at the offset is reversed in place |
| MsgPackWriter.WriteTaggedWord | src/esp32/src/msgpack_helper.cpp:96-151 | a tag byte then a word copied little-endian and swapped writes the tag and the big-endian word |
| MsgPackWriter.WriteTagged8 | src/esp32/src/msgpack_helper.cpp:92-95 | a tag and one payload byte are written |
| MsgPackWriter.WriteStrHeader | src/esp32/src/msgpack_helper.cpp:35-60 | the header of a string of n bytes (fixstr, str8, str16 or str32) is written |
| MsgPackWriter.PackString | src/esp32/src/msgpack_helper.cpp:29-69 | packString writes the string's encoding, or nil for a null pointer, and returns its length, or 0 on overflow |
| MsgPackWriter.WriteCount | src/esp32/src/msgpack_helper.cpp:215-285 | a map or array header of n entries is written |
| MsgPackWriter.PackInt32 | src/esp32/src/msgpack_helper.cpp:84-118 | the int branch writes the signed integer's encoding |
| MsgPackWriter.PackUint32 | src/esp32/src/msgpack_helper.cpp:121-152 | the unsigned branch writes the unsigned integer's encoding |
| MsgPackWriter.PackValue | src/esp32/src/msgpack_helper.cpp:71-201 | packValue writes the value's encoding and returns its length, or 0 on overflow |
| MsgPackWriter.PackMember | src/esp32/src/msgpack_helper.cpp:243-250 | a member writes nothing for a null value, else its key and its value |
| MsgPackWriter.CountPresent | src/esp32/src/msgpack_helper.cpp:207-212 | the counting loop counts the non-null members |
| MsgPackWriter.PackObject | src/esp32/src/msgpack_helper.cpp:203-253 | packObject writes a map header counting the non-null members, then those members in order |
| MsgPackWriter.PackArray | src/esp32/src/msgpack_helper.cpp:255-293 | packArray writes an array header then every item |
| MsgPackWriter.Serialize | src/esp32/src/msgpack_helper.cpp:295-319 | serialize returns a length exactly when the encoding fits; then the buffer starts with the encoding, which decodes back to the document |
| MsgPackWriter.EstimateSize | src/esp32/src/msgpack_helper.cpp:321-325 | the estimate is 55% of the JSON size rounded down, in 32-bit arithmetic |
| Cloud.Take | src/esp32/src/cloud_connection.cpp:489 | a prefix of the URL of at most n characters, as `substring(0, 8)` takes |
| Cloud.Scheme | src/esp32/src/cloud_connection.cpp:489-505 | the scheme decision ends inside the URL |
| Cloud.ParseUrl | src/esp32/src/cloud_connection.cpp:487-530 | `parseUrl` succeeds exactly when the host is non-empty; the port is a 16-bit value and the path always starts with '/' |
| Cloud.ParseUrlFails | src/esp32/src/cloud_connection.cpp:507-530 | parsing fails exactly when nothing follows the scheme, or the host part starts with '/' or ':' |
| Cloud.PortReadsBack | src/esp32/src/cloud_connection.cpp:522-523 | a port written in decimal reads back as the same 16-bit value |
| Cloud.SchemeOf | src/esp32/src/cloud_connection.cpp:489-505 | each known scheme, in any case, is recognised with its length and its TLS flag |
| Cloud.ParseUrlRoundTrip | src/esp32/src/cloud_connection.cpp:487-530 | a URL composed from a known scheme, a plain host, an optional port and a path parses back to exactly those parts, with 443 or 80 as the default port |
| Cloud.BinaryFrame | src/esp32/src/cloud_connection.cpp:736-751 | a queued binary message is the payload plus five header bytes |
| Cloud.TextCopy | src/esp32/src/cloud_connection.cpp:683-689 | a queued text message is the text plus its terminating zero |
| Cloud.CStr | src/esp32/src/cloud_connection.cpp:801-811 | the text sent for a text message is the bytes up to the first zero |
| Cloud.ShortTextReadsPastCopy | src/esp32/src/cloud_connection.cpp:776 | the queued copy of "{}" is three bytes long, so reading its fifth byte goes past the copy |
| Cloud.BinaryRoundTrip | src/esp32/src/cloud_connection.cpp:774-780 | every queued binary frame goes out as a binary message carrying exactly its payload |
| Cloud.TextRoundTrip | src/esp32/src/cloud_connection.cpp:774-785 | a queued text without a binary marker at offset 4 goes out as exactly that text |
| Cloud.CloudConnection.constructor | src/esp32/src/cloud_connection.cpp:20-25 | a new connection is disabled, not connected, not paused, with the default reconnect delay and an empty queue, and has a send queue exactly when its creation succeeded |
| Cloud.CloudConnection.GetStatus | src/esp32/src/cloud_connection.cpp:843-854 | "disabled", "connected", "connecting" or "disconnected", each exactly in its case |
| Cloud.CloudConnection.Pause | src/esp32/src/cloud_connection.cpp:452-477 | the pause ends 30 s after now (32-bit wrap); a fresh pause drops a live or pending link and records the attempt time; extending a pause changes nothing else |
| Cloud.CloudConnection.Resume | src/esp32/src/cloud_connection.cpp:479-485 | the pause is cleared, and a pending pause also allows an immediate reconnect |
| Cloud.CloudConnection.Send | src/esp32/src/cloud_connection.cpp:668-697 | the text's copy is appended to the queue exactly when the queue exists, the link is connected, the text is shorter than 2048 bytes, the copy could be allocated and the queue has room; nothing else changes |
| Cloud.CloudConnection.SendBinary | src/esp32/src/cloud_connection.cpp:726-758 | a non-empty payload shorter than 2043 bytes is framed and queued exactly when the queue exists, the link is connected, the frame could be allocated and the queue has room; nothing else changes |
| Cloud.CloudConnection.ProcessSendQueue | src/esp32/src/cloud_connection.cpp:760-825 | when the queue exists and the link is connected, the oldest min(10, queue length) messages leave the queue in order, each sent as its decoded message |
| Cloud.CloudConnection.SetEnabled | src/esp32/src/cloud_connection.cpp:856-864 | enabling resets the reconnect delay to 1 s; disabling ends the connection and empties the queue; a repeated setting changes nothing |
| Cloud.CloudConnection.End | src/esp32/src/cloud_connection.cpp:61-93 | the connection is disabled, disconnected and its queue freed |
| PicoLogging.LevelName | src/pico/src/logging.c:236-245 | each of the five levels has its own name and exactly the out-of-range levels are "UNKNOWN" |
| PicoLogging.ForwardLevel | src/pico/src/logging.c:191-203 | error, warn, info and debug forward at their own level, trace forwards as debug, anything else as info |
| PicoLogging.Truncated | src/pico/src/logging.c:173-178 | a formatted message keeps at most 95 characters, and a shorter one is kept whole |
| PicoLogging.Slot | src/pico/src/logging.c:115 | a ring position wraps to an index inside the 1024-byte buffer |
| PicoLogging.Logging.Contents | src/pico/src/logging.c:96-156 | the unread bytes number exactly the ring's count |
| PicoLogging.Logging.constructor | src/pico/src/logging.c:31-40 | the ring starts empty, at level info, with forwarding off and not initialised |
| PicoLogging.Logging.Init | src/pico/src/logging.c:46-56 | the first call sets level info and forwarding off; later calls change nothing; the ring is untouched |
| PicoLogging.Logging.SetLevel | src/pico/src/logging.c:58-62 | a level up to trace is taken, any other is ignored |
| PicoLogging.Logging.SetForwardEnabled | src/pico/src/logging.c:68-82 | the forwarding flag becomes the requested value and nothing else changes |
| PicoLogging.Logging.Write | src/pico/src/logging.c:96-123 | a message is appended exactly when it is non-empty, shorter than the buffer and fits while one byte stays free; otherwise the ring is unchanged |
| PicoLogging.Logging.CopyIn | src/pico/src/logging.c:112-116 | the message lands in the free space after the queued bytes, which stay as they were, and the write position ends just past it |
| PicoLogging.Logging.Read | src/pico/src/logging.c:129-156 | the oldest min(count, maxLen) bytes are returned in order and removed from the ring |
| PicoLogging.Logging.LogMessage | src/pico/src/logging.c:162-223 | a message above the level is dropped; otherwise its truncated text is queued when it fits and forwarded at its mapped level when both forwarding flags are set |
| PicoLogging.Logging.ProcessPending | src/pico/src/logging.c:251-285 | the ring is drained in 95-byte chunks until more than 512 bytes are printed, so the oldest min(count, 570) bytes are printed in order |
| LogManager.LevelTag | src/esp32/src/log_manager.cpp:105-113 | every level has a one-letter tag, "?" exactly for levels beyond debug |
| LogManager.SourceTag | src/esp32/src/log_manager.cpp:115-121 | the source tag is "ESP" or "PICO" |
| LogManager.PrefixLength | src/esp32/src/log_manager.cpp:175-176 | the "[ms] [SOURCE] L: " prefix of a 32-bit timestamp is at most 23 characters |
| LogManager.MaxMessage | src/esp32/src/log_manager.cpp:177 | prefix, message room, newline and terminator fill the 256-byte entry exactly |
| LogManager.Entry | src/esp32/src/log_manager.cpp:169-195 | an entry written to the ring is non-empty and shorter than 256 characters |
| LogManager.EntryFormat | src/esp32/src/log_manager.cpp:169-195 | an entry is its prefix, then a prefix of the message, then a newline; a message that fits is kept whole |
| LogManager.CStr | src/esp32/src/log_manager.cpp:306-311 | the copied message is the payload up to its first NUL byte |
| LogManager.Cleared | src/esp32/src/log_manager.cpp:259-263 | a zeroed ring with head and tail at 0 is a well-formed ring |
| LogManager.LiveLength | src/esp32/src/log_manager.cpp:227-241 | a download holds at most the ring's size; the whole ring when full, the head position before the first wrap |
| LogManager.Live | src/esp32/src/log_manager.cpp:227-241 | the downloaded text has exactly that length |
| LogManager.LiveSlices | src/esp32/src/log_manager.cpp:227-241 | the held text is tail-to-end then start-to-head when the ring is wrapped and the head is not past the tail, and tail-to-head otherwise |
| LogManager.SizeField | src/esp32/src/log_manager.cpp:148-153 | the reported size is never less than what a download returns |
| LogManager.EvictCount | src/esp32/src/log_manager.cpp:127-137 | a write into a full ring gives up at least one and at most all characters |
| LogManager.Step | src/esp32/src/log_manager.cpp:126-146 | one character written keeps the ring well formed |
| LogManager.WriteAll | src/esp32/src/log_manager.cpp:123-154 | writing a run of characters keeps the ring well formed |
| LogManager.StepAppends | src/esp32/src/log_manager.cpp:139-145 | a character written to a ring with room is appended to the held text |
| LogManager.StepEvicts | src/esp32/src/log_manager.cpp:127-145 | a character written to a full ring drops the oldest line first, then is appended |
| LogManager.StepLive | src/esp32/src/log_manager.cpp:126-146 | what one write does to the held text, in both cases |
| LogManager.HoldsStep | src/esp32/src/log_manager.cpp:126-146 | after a write the ring still holds a suffix of everything ever written, ending with the new character |
| LogManager.WriteAllHolds | src/esp32/src/log_manager.cpp:123-154 | the same for a run of characters |
| LogManager.WriteFromEmpty | src/esp32/src/log_manager.cpp:69-77 | fewer characters than the ring holds, written to an empty ring, are held exactly |
| LogManager.ClearedHolds | src/esp32/src/log_manager.cpp:252-268 | a cleared ring holds nothing |
| LogManager.StepAsWritten | src/esp32/src/log_manager.cpp:127-145 | the source's byte step keeps the ring well formed |
| LogManager.WriteAllAsWritten | src/esp32/src/log_manager.cpp:123-154 | the source's write loop keeps the ring well formed |
| LogManager.AsWrittenTailStays | src/esp32/src/log_manager.cpp:128-137 | as written, without newlines the tail never moves, whatever is written |
| LogManager.AsWrittenOverlong | src/esp32/src/log_manager.cpp:128-137 | as written, 51201 newline-free characters from a cleared ring make a download longer than the ring and than the reported size |
| LogManager.GetLogsAsWritten | src/esp32/src/log_manager.cpp:227-241 | as written, the download is as long as the held text, plus a whole buffer when the ring is wrapped and the head is past the tail |
| LogManager.GetLogsRepeatsAsWritten | src/esp32/src/log_manager.cpp:227-241 | as written, a wrapped ring whose head is past its tail downloads more than the buffer holds, with the held text both first and last |
| LogManager.LiveFits | src/esp32/src/log_manager.cpp:217-250 | with the intended step no download is longer than the reported size or the ring, and it is always a suffix of all text written |
| LogManager.PicoLevel | src/esp32/src/log_manager.cpp:303-304 | a forwarded level byte up to debug is kept, anything above it becomes info |
| LogManager.PicoMessage | src/esp32/src/log_manager.cpp:306-311 | the forwarded message is the payload after the level byte, up to its first NUL, cut to 199 characters |
| LogManager.PicoBroadcast | src/esp32/src/log_manager.cpp:316-337 | info is broadcast as "info", debug only when debug logs are enabled, error and warn never |
| LogManager.LogManager.constructor | src/esp32/src/log_manager.cpp:26-41 | a new manager is disabled, with Pico forwarding off |
| LogManager.LogManager.LogsSize | src/esp32/src/log_manager.cpp:247-250 | the reported size is at most the ring size, and 0 means a download returns nothing |
| LogManager.LogManager.ResetRing | src/esp32/src/log_manager.cpp:69-73 | the zeroed ring holds nothing |
| LogManager.LogManager.WriteToBuffer | src/esp32/src/log_manager.cpp:123-154 | the buffer ends as the ring specification after the whole run, and the run is added to the history |
| LogManager.LogManager.WriteChar | src/esp32/src/log_manager.cpp:126-146 | one pass of the loop performs exactly one specified step |
| LogManager.LogManager.EvictLine | src/esp32/src/log_manager.cpp:127-137 | on a full ring the tail moves past the oldest line |
| LogManager.LogManager.AddLog | src/esp32/src/log_manager.cpp:156-198 | while enabled the formatted entry is written to the ring; while disabled nothing changes |
| LogManager.LogManager.Enable | src/esp32/src/log_manager.cpp:52-80 | success exactly when already enabled or the allocation succeeds; a new buffer holds only the "Log buffer enabled" entry |
| LogManager.LogManager.Restart | src/esp32/src/log_manager.cpp:252-268 | an emptied ring holding one entry holds exactly that entry |
| LogManager.LogManager.Disable | src/esp32/src/log_manager.cpp:82-103 | the manager ends disabled with Pico forwarding off, and the ring is dropped when it was enabled |
| LogManager.LogManager.Clear | src/esp32/src/log_manager.cpp:252-268 | while enabled the ring ends holding only the "Logs cleared" entry; while disabled nothing changes |
| LogManager.LogManager.GetLogs | src/esp32/src/log_manager.cpp:217-245 | the download is the held text while enabled and empty otherwise; it fits the reported size and is a suffix of everything written |
| LogManager.LogManager.CopyRange | src/esp32/src/log_manager.cpp:230-240 | the copied characters are exactly the buffer's range |
| LogManager.LogManager.SetPicoLogForwarding | src/esp32/src/log_manager.cpp:270-290 | enabling while the buffer is off is refused; otherwise the flag is set, the command byte is sent, and the outcome is logged as info or warn |
| LogManager.LogManager.HandlePicoLog | src/esp32/src/log_manager.cpp:292-338 | a payload of at least two bytes, while enabled, is logged with its mapped level and message and broadcast under its level name; otherwise nothing changes |
| StateTypes.Pos | src/esp32/src/state/state_types.cpp:529-534 | the slot of the shot i places back from the newest lies inside the 50-slot ring |
| StateTypes.PosAfterWrite | src/esp32/src/state/state_types.cpp:523-534 | after a write the new shot is at place 0 and every older shot moves one place back, and the slot written is never one still read |
| StateTypes.Take | src/esp32/src/state/state_types.cpp:523-527 | the newest 50 shots are kept, in order |
| StateTypes.ShotHistory.constructor | src/esp32/include/state/state_types.h:315-320 | a new history holds no shots |
| StateTypes.ShotHistory.AddShot | src/esp32/src/state/state_types.cpp:523-527 | the shot becomes the newest and only the newest 50 are held |
| StateTypes.ShotHistory.GetShot | src/esp32/src/state/state_types.cpp:529-534 | no shot exactly for an index beyond the count; otherwise the shot that many places back from the newest |
| StateTypes.ShotHistory.Shots | src/esp32/src/state/state_types.cpp:536-544 | the walk of the history lists the held shots newest first |
| StateTypes.ShotHistory.Clear | src/esp32/src/state/state_types.cpp:556-559 | a cleared history holds nothing |
| StateTypes.Added | src/esp32/src/state/state_types.cpp:523-527 | after any run of additions the ring holds min(50, additions) shots |
| StateTypes.AddedNewestFirst | src/esp32/src/state/state_types.cpp:523-534 | shot i back from the newest is the i-th most recent shot added |
| StateTypes.DayMasks | src/esp32/src/state/state_types.cpp:674-678 | the every-day mask runs on days 0-6, the weekday mask exactly on 1-5, the weekend mask exactly on 0 and 6 |
| StateTypes.MaskUnion | src/esp32/src/state/state_types.cpp:674-678 | a schedule on the union of two masks runs on a day exactly when one of them does |
| StateTypes.MatchesOneTime | src/esp32/src/state/state_types.cpp:680-682 | a schedule matches exactly one hour and minute |
| StateTypes.CountUsed | src/esp32/src/state/state_types.cpp:756-778 | the number of used slots is at most the table size |
| StateTypes.MaxId | src/esp32/src/state/state_types.cpp:746-754 | the largest id stored: every id is at most it, and it is 0 or some stored id |
| StateTypes.FirstWithId | src/esp32/src/state/state_types.cpp:728-744 | the first slot holding the id, or none exactly when no slot holds it |
| StateTypes.NextId | src/esp32/src/state/state_types.cpp:746-761 | the id given to a new schedule exceeds the entry's own id and every other stored id |
| StateTypes.ScheduleAddedAt | src/esp32/src/state/state_types.cpp:756-767 | adding into the first unused slot gives the largest id plus one, and refuses once that would not fit in 8 bits |
| StateTypes.AddScheduleKeepsTable | src/esp32/src/state/state_types.cpp:756-767 | adding keeps ids unique, counts one more used slot exactly when it reports an id, and that id is new and larger than every stored id |
| StateTypes.AddedTableValid | src/esp32/src/state/state_types.cpp:756-767 | adding keeps the count equal to the used slots |
| StateTypes.ScheduleSettings.constructor | src/esp32/include/state/state_types.h:216-220 | a new table has no schedules |
| StateTypes.ScheduleSettings.FindById | src/esp32/src/state/state_types.cpp:728-735 | the slot found is the first holding the id |
| StateTypes.ScheduleSettings.GetNextId | src/esp32/src/state/state_types.cpp:746-754 | the largest stored id plus one, wrapping to 0 after 255 |
| StateTypes.ScheduleSettings.AddSchedule | src/esp32/src/state/state_types.cpp:756-767 | the table and the reported id are those of the schedule-add specification, and the count goes up exactly when an id is reported |
| StateTypes.ScheduleSettings.StoreWithNextId | src/esp32/src/state/state_types.cpp:760-763 | the entry is stored with the next id, unless that id wraps to 0 |
| StateTypes.ScheduleSettings.Put | src/esp32/src/state/state_types.cpp:760-761 | one slot's assignment changes that slot and no other |
| StateTypes.ScheduleSettings.RemoveSchedule | src/esp32/src/state/state_types.cpp:769-778 | removal succeeds exactly for a non-zero id that is stored; the first slot holding it is cleared and the count goes down, otherwise nothing changes |
| StateTypes.AddScheduleSteps | src/esp32/src/state/state_types.cpp:756-767 | the steps of adding: the next id is the largest id plus one, and nothing is stored once it would exceed 255 |
| StateTypes.AddKeepsCount | src/esp32/src/state/state_types.cpp:760-762 | using an unused slot counts one more |
| StateTypes.RemoveCounts | src/esp32/src/state/state_types.cpp:772-773 | clearing a used slot counts one fewer |
| StateTypes.AddKeepsUnique | src/esp32/src/state/state_types.cpp:760-761 | a new id larger than every other keeps the ids unique |
| StateTypes.AddScheduleWraps | src/esp32/src/state/state_types.cpp:756-767 | as written, with a schedule of id 255 stored, adding another reports 0 yet counts two schedules while one is used |
| StateTypes.RemoveZeroMiscounts | src/esp32/src/state/state_types.cpp:769-778 | as written, removing id 0 from an empty table reports success and the 8-bit count wraps to 255 |
| StateTypes.AddScheduleAsWritten | src/esp32/src/state/state_types.cpp:756-767 | as written, adding gives the corrected table and id whenever the corrected add succeeds; the 8-bit count goes up whenever a free slot exists, and a full table changes nothing |
| StateTypes.RemoveScheduleAsWritten | src/esp32/src/state/state_types.cpp:769-778 | as written, removal succeeds exactly when some slot holds the id (for id 0, any unused slot), clears the first such slot, and the 8-bit count goes down, from 0 to 255 |
| StateTypes.Statistics.constructor | src/esp32/include/state/state_types.h:262-285 | a new record starts every counter and every timestamp at 0 |
| StateTypes.Statistics.ResetDaily | src/esp32/src/state/state_types.cpp:469-473 | today's counters go to 0 |
| StateTypes.Statistics.RecordMaintenance | src/esp32/src/state/state_types.cpp:475-487 | "descale" restarts the descale counter and time; "backflush" restarts the backflush and group-clean counters and times; any other kind changes nothing |
| StateTypes.MachineStateRoundTrip | src/esp32/src/state/state_types.cpp:595-630 | every state reads back from its name, and every name is one of the nine known |
| StateTypes.MachineStateFromString | src/esp32/src/state/state_types.cpp:619-630 | a known name reads back to itself; any other reads as init |
| StateTypes.MachineModeRoundTrip | src/esp32/src/state/state_types.cpp:610-637 | every mode reads back from its name |
| StateTypes.MachineModeFromString | src/esp32/src/state/state_types.cpp:632-637 | a known name reads back to itself; any other reads as standby |
| StatisticsManager.RecordMaintenance | src/esp32/src/statistics/statistics_manager.cpp:140-151 | "backflush" restarts the backflush and group-clean counters at the given time, "descale" the descale counter, and any other kind changes nothing |
| StatisticsManager.CountsSinceMaintenance | src/esp32/src/statistics/statistics_manager.cpp:140-151 | after a maintenance event and n more shots, the restarted counters read n and the others have grown by n |
| StatisticsManager.MaintenanceDue | src/esp32/src/statistics/statistics_manager.cpp:313-332 | a backflush is due exactly at 100 shots since the last one and a descale at 500; the descale is overdue by the days past 60 since the last descale, or 0 when none is recorded |
| StatisticsManager.AddBrew | src/esp32/src/statistics/statistics_manager.cpp:256-276 | an accepted brew adds one shot and its duration, sets the first-shot time once, widens the min and max and keeps the average equal to total over count |
| StatisticsManager.LifetimeDescribesBrews | src/esp32/src/statistics/statistics_manager.cpp:256-276 | from zeroed counters, the lifetime statistics after any brews are their count, their total, their true minimum and maximum and their mean |
| StatisticsManager.Back | src/esp32/src/statistics/statistics_manager.cpp:339-340 | the slot i places back from the newest lies inside the ring |
| StatisticsManager.Take | src/esp32/src/statistics/statistics_manager.cpp:832-858 | the newest entries up to the ring's capacity are kept, in order |
| StatisticsManager.Ring.constructor | src/esp32/src/statistics/statistics_manager.cpp:832-858 | a new ring of a positive capacity holds nothing |
| StatisticsManager.Ring.Add | src/esp32/src/statistics/statistics_manager.cpp:832-858 | the entry becomes the newest and only the newest capacity-many are held; head and count advance as in the source |
| StatisticsManager.Ring.Get | src/esp32/src/statistics/statistics_manager.cpp:453-456 | the entry i places back is the i-th newest |
| StatisticsManager.Ring.Set | src/esp32/src/statistics/statistics_manager.cpp:334-342 | only the i-th newest entry is replaced |
| StatisticsManager.Ring.Clear | src/esp32/src/statistics/statistics_manager.cpp:774-782 | a cleared ring holds nothing |
| StatisticsManager.Ring.Chronological | src/esp32/src/statistics/statistics_manager.cpp:496-512 | the oldest-first walk lists every held entry from the oldest to the newest |
| StatisticsManager.BackInjective | src/esp32/src/statistics/statistics_manager.cpp:339-340 | distinct places back are distinct slots |
| StatisticsManager.OldestFirstIndex | src/esp32/src/statistics/statistics_manager.cpp:499-500 | the oldest-first index is the slot of the matching place back from the newest |
| StatisticsManager.Pushed | src/esp32/src/statistics/statistics_manager.cpp:832-858 | after any run of additions a ring holds min(capacity, additions) entries |
| StatisticsManager.PushedNewestFirst | src/esp32/src/statistics/statistics_manager.cpp:832-858 | entry i back from the newest is the i-th most recent addition |
| StatisticsManager.Since | src/esp32/src/statistics/statistics_manager.cpp:453-470 | the brews counted are held brews made at or after the start |
| StatisticsManager.Summarize | src/esp32/src/statistics/statistics_manager.cpp:450-475 | the period's count is the number of brews, its min and max are attained bounds of their durations, and no brews give all zeros |
| StatisticsManager.Manager.constructor | src/esp32/src/statistics/statistics_manager.cpp:177-180 | a new manager has zeroed statistics and empty rings of the given capacities |
| StatisticsManager.Manager.RecordBrew | src/esp32/src/statistics/statistics_manager.cpp:236-296 | a brew is accepted exactly when its duration is within the valid range; then it is added to the history, the lifetime and maintenance counters and the session; otherwise nothing changes |
| StatisticsManager.Manager.RecordSteamCycle | src/esp32/src/statistics/statistics_manager.cpp:298-302 | one more steam cycle, and the statistics are marked for saving |
| StatisticsManager.Manager.RecordMaintenanceEvent | src/esp32/src/statistics/statistics_manager.cpp:304-311 | the maintenance counters become those of the recorded event |
| StatisticsManager.Manager.RateBrew | src/esp32/src/statistics/statistics_manager.cpp:334-342 | a rating up to 5 for a held brew replaces only that brew's rating; anything else changes nothing |
| StatisticsManager.Manager.AddPowerSample | src/esp32/src/statistics/statistics_manager.cpp:842-850 | the sample becomes the newest power sample; the other histories are unchanged |
| StatisticsManager.Manager.AddDailySummary | src/esp32/src/statistics/statistics_manager.cpp:852-858 | the summary becomes the newest daily summary; the other histories are unchanged |
| StatisticsManager.Manager.ResetAll | src/esp32/src/statistics/statistics_manager.cpp:774-797 | every counter and every history is emptied |
| StatisticsManager.Manager.CalculatePeriodStats | src/esp32/src/statistics/statistics_manager.cpp:450-475 | the period statistics summarise exactly the held brews made since the start |
| NotificationManager.Index | src/esp32/src/notifications/notification_manager.cpp:417-421 | every notification type indexes one of the seven last-notified slots |
| NotificationManager.Cooldown | src/esp32/src/notifications/notification_manager.cpp:432-451 | offline waits 30 s, ready and error 1 min, water empty 5 min, the maintenance reminders 24 h |
| NotificationManager.AlertsRepeatSooner | src/esp32/src/notifications/notification_manager.cpp:432-451 | an alert never waits longer than a reminder before repeating |
| NotificationManager.Route | src/esp32/src/notifications/notification_manager.cpp:336-378 | nothing goes out while disabled; otherwise the UI and MQTT get every notification, and the cloud exactly when push is on and the type's preference wants it |
| NotificationManager.AlertsAlwaysPush | src/esp32/src/notifications/notification_manager.cpp:366-369 | an alert reaches the cloud whenever push is on |
| NotificationManager.RemindersFollowPreference | src/esp32/src/notifications/notification_manager.cpp:353-365 | a reminder reaches the cloud exactly when its own preference is on |
| NotificationManager.FindType | src/esp32/src/notifications/notification_manager.cpp:260-269 | the first active entry of the type, or none exactly when there is none |
| NotificationManager.FirstReminder | src/esp32/src/notifications/notification_manager.cpp:393-399 | the first active entry that is not an alert, or none when all are alerts |
| NotificationManager.Alerts | src/esp32/src/notifications/notification_manager.cpp:215-228 | clearing reminders keeps only alerts, taken from the table |
| NotificationManager.AddActiveKeepsTable | src/esp32/src/notifications/notification_manager.cpp:380-402 | adding keeps one entry per type and at most the table size; the notification is stored exactly when its type is present, there is room or a reminder can be replaced, and otherwise nothing changes |
| NotificationManager.RemoveActiveKeepsTable | src/esp32/src/notifications/notification_manager.cpp:404-415 | removing drops the type's entry and keeps every other entry |
| NotificationManager.ClearKeepsAlerts | src/esp32/src/notifications/notification_manager.cpp:215-228 | clearing reminders keeps every alert |
| NotificationManager.ClearIdempotent | src/esp32/src/notifications/notification_manager.cpp:215-228 | clearing reminders twice is clearing them once |
| NotificationManager.ClearKeepsAlertStatus | src/esp32/src/notifications/notification_manager.cpp:215-251 | clearing reminders does not change whether an unacknowledged alert is active |
| NotificationManager.FirstNotificationAfterBootSuppressed | src/esp32/src/notifications/notification_manager.cpp:417-430 | with the last-notified times at 0, a ready notification in the first minute after boot is treated as a duplicate |
| NotificationManager.AlertsUnique | src/esp32/src/notifications/notification_manager.cpp:215-228 | the alerts kept still have one entry per type |
| NotificationManager.Manager.constructor | src/esp32/src/notifications/notification_manager.cpp:17-34 | a new manager has no active entries, zeroed last-notified times and the default preferences |
| NotificationManager.Manager.IsDuplicate | src/esp32/src/notifications/notification_manager.cpp:417-430 | a duplicate exactly within the cooldown of the type's last time; otherwise that time becomes now |
| NotificationManager.Manager.AddActive | src/esp32/src/notifications/notification_manager.cpp:380-402 | the table becomes the specified table after adding |
| NotificationManager.Manager.RemoveActive | src/esp32/src/notifications/notification_manager.cpp:404-415 | the table becomes the specified table after removing |
| NotificationManager.Manager.ShiftDown | src/esp32/src/notifications/notification_manager.cpp:407-410 | the entries after the removed one move down by one, in order |
| NotificationManager.Manager.ClearReminders | src/esp32/src/notifications/notification_manager.cpp:215-228 | the table becomes its alerts, in order |
| NotificationManager.Manager.KeepOne | src/esp32/src/notifications/notification_manager.cpp:219-224 | one step of the compaction keeps the written prefix equal to the alerts among the scanned cells and leaves the unscanned cells alone |
| NotificationManager.Manager.KeepAlerts | src/esp32/src/notifications/notification_manager.cpp:217-226 | the compaction loop leaves exactly the alerts at the front, in order |
| NotificationManager.Manager.Acknowledge | src/esp32/src/notifications/notification_manager.cpp:205-213 | the first entry of the type is marked acknowledged; nothing changes when there is none |
| NotificationManager.Manager.HasActiveAlerts | src/esp32/src/notifications/notification_manager.cpp:243-250 | true exactly when some active alert is unacknowledged |
| NotificationManager.Manager.Get | src/esp32/src/notifications/notification_manager.cpp:260-269 | the entry of the type exactly when one is active |
| NotificationManager.Manager.Raise | src/esp32/src/notifications/notification_manager.cpp:61-198 | within the cooldown nothing happens; otherwise the notification is routed, added to the table and its time recorded |
| NotificationManager.Manager.ClearCondition | src/esp32/src/notifications/notification_manager.cpp:230-237 | the type's entry is removed and its last-notified time reset so it can fire again |
| JsonBufferPool.FirstFree | src/esp32/src/json_buffer_pool.cpp:48-54 | the first buffer not in use, or none exactly when every buffer is in use |
| JsonBufferPool.CountFree | src/esp32/src/json_buffer_pool.cpp:93-98 | the free count is at most the pool size |
| JsonBufferPool.Pool.constructor | src/esp32/src/json_buffer_pool.cpp:15-28 | every pool buffer starts free and holding the empty string |
| JsonBufferPool.Pool.Allocate | src/esp32/src/json_buffer_pool.cpp:30-59 | a request of at most 1024 bytes, with the mutex present and a buffer free, takes the first free buffer and marks only it in use; every other request falls back to the heap and changes nothing |
| JsonBufferPool.Pool.Release | src/esp32/src/json_buffer_pool.cpp:61-85 | a pool buffer is marked free and emptied when the mutex is present; anything else non-null is freed to the heap; nothing else changes |
| JsonBufferPool.Pool.GetStats | src/esp32/src/json_buffer_pool.cpp:87-102 | three buffers of 1024 bytes, and the number free when the mutex is present, 0 otherwise |
| JsonBufferPool.TakeCountsDown | src/esp32/src/json_buffer_pool.cpp:48-54 | taking a free buffer leaves one fewer free |
| JsonBufferPool.GiveBackCountsUp | src/esp32/src/json_buffer_pool.cpp:72-76 | giving back a buffer in use leaves one more free |
| JsonBufferPool.FreeIffCount | src/esp32/src/json_buffer_pool.cpp:48-58 | some buffer is free exactly when the free count is positive, so the heap fallback happens only when all are taken |
| JsonBufferPool.AllocateReleaseRoundTrip | src/esp32/src/json_buffer_pool.cpp:30-85 | the buffer handed out was not in use, taking it counts one fewer free, and releasing it restores the table |
| ScaleFactory.Code | src/esp32/include/scale/scale_interface.h:17-26 | the eight scale types have the codes 0 to 7, and 0 is exactly UNKNOWN |
| ScaleFactory.FirstMatch | src/esp32/src/scale/scale_factory.cpp:14-76 | a recognised type is the result of some rule that matches |
| ScaleFactory.AcaiaRule | src/esp32/src/scale/scale_factory.cpp:21-28 | the Acaia group matches exactly the names starting with acaia, lunar, pearl, pyxis, cinco or orion |
| ScaleFactory.BookooRule | src/esp32/src/scale/scale_factory.cpp:31-35 | the Bookoo group matches exactly the names starting with bookoo or containing themis |
| ScaleFactory.FelicitaRule | src/esp32/src/scale/scale_factory.cpp:38-43 | the Felicita group matches exactly the names starting with felicita, arc or parallel, or containing incline |
| ScaleFactory.DecentRule | src/esp32/src/scale/scale_factory.cpp:46-50 | the Decent group matches exactly the names starting with decent or de1, or containing "decent scale" |
| ScaleFactory.TimemoreRule | src/esp32/src/scale/scale_factory.cpp:53-57 | the Timemore group matches exactly the names starting with timemore or containing "black mirror" or "basic" |
| ScaleFactory.HiroiaRule | src/esp32/src/scale/scale_factory.cpp:60-63 | the Hiroia group matches exactly the names starting with hiroia or jimmy |
| ScaleFactory.SkaleRule | src/esp32/src/scale/scale_factory.cpp:66-68 | the Skale group matches exactly the names starting with skale |
| ScaleFactory.BrewistaRule | src/esp32/src/scale/scale_factory.cpp:71-73 | the Brewista group matches exactly the names starting with brewista |
| ScaleFactory.ClassifyIsFirstMatch | src/esp32/src/scale/scale_factory.cpp:14-76 | the chain of tests is the first-matching-rule classification |
| ScaleFactory.EmptyIsUnknown | src/esp32/src/scale/scale_factory.cpp:15 | a missing or empty name is UNKNOWN |
| ScaleFactory.LowerIdempotent | src/esp32/src/scale/scale_factory.cpp:17-18 | lower-casing twice is lower-casing once |
| ScaleFactory.CaseInsensitive | src/esp32/src/scale/scale_factory.cpp:17-18 | a name and its lower-case form are classified alike |
| ScaleFactory.RecognisedByRule | src/esp32/src/scale/scale_factory.cpp:14-76 | a recognised name is matched by a rule of the type it gets |
| ScaleFactory.AcaiaFirst | src/esp32/src/scale/scale_factory.cpp:21-28 | any name starting with lunar is an Acaia, whatever follows |
| ScaleFactory.FirstMatchWins | src/esp32/src/scale/scale_factory.cpp:14-76 | the first rule that matches decides, whatever the later rules say |
| ScaleFactory.SkaleIsFelicita | src/esp32/src/scale/scale_factory.cpp:66-68 | a Skale name no earlier group claims is classified as Felicita |
| ScaleFactory.BrewistaIsGeneric | src/esp32/src/scale/scale_factory.cpp:71-73 | a Brewista name no earlier group claims is classified as a generic weight-scale-service scale |
| ScaleFactory.BasicAnywhere | src/esp32/src/scale/scale_factory.cpp:53-57 | a name with "basic" anywhere that no earlier group claims is a Timemore |
| ScaleFactory.NamesDistinct | src/esp32/src/scale/scale_factory.cpp:78-89 | the seven known types have distinct names, none of them "Unknown" |
| ScaleFactory.OtherNamesUnknown | src/esp32/src/scale/scale_factory.cpp:78-89 | every code outside 1 to 7 is named "Unknown" |
| PicoState.Initial | src/pico/src/state.c:272-322 | the machine starts in init, idle mode, not brewing, no brew timer, pre-infusion off with the default timings, the persisted eco settings, the idle timer at now, and the state entry time at now as the closing INIT entry action (state.c:152) stamps it |
| PicoState.StartBrew | src/pico/src/state.c:684-706 | brewing afterwards exactly when it was brewing already or a brew may start; nothing else changes |
| PicoState.StopBrew | src/pico/src/state.c:708-723 | after a stop the machine is not brewing |
| PicoState.SetMode | src/pico/src/state.c:657-682 | the mode becomes the requested one exactly when the change is allowed; nothing else changes |
| PicoState.BrewDuration | src/pico/src/state.c:776-796 | the brew duration is a 32-bit value |
| PicoState.BrewStartTimestamp | src/pico/src/state.c:798-809 | non-zero exactly while brewing with a recorded start, and then the start time |
| PicoState.SetPreinfusion | src/pico/src/state.c:733-739 | the pre-infusion switch and timings become the given ones, nothing else changes and the state stays well formed |
| PicoState.SetEcoConfig | src/pico/src/state.c:811-826 | the eco settings become the given ones, and disabling eco while in eco wakes the machine |
| PicoState.ResetIdleTimer | src/pico/src/state.c:881-888 | the idle timer restarts at now and the machine is not left in eco |
| PicoState.MovedValid | src/pico/src/state.c:634-642 | every state change, with its exit and entry actions, keeps the globals well formed |
| PicoState.ShotTimeCapturedOnce | src/pico/src/state.c:149-270 | a brew started at t0 reads its elapsed time while running; once stopped at t1 it reads t1 - t0, and leaving the brewing state does not move that stop time |
| PicoState.StopBrewOnce | src/pico/src/state.c:708-723 | a second stop changes nothing, and the stop time is captured only on the first stop of a started brew |
| PicoState.ModeFrozenWhileBrewing | src/pico/src/state.c:658-661 | while brewing no mode change takes effect |
| PicoState.DefensiveModeOnlyIdle | src/pico/src/state.c:657-682 | in defensive mode only a change to idle, when not brewing, takes effect |
| PicoState.EcoRoundTrip | src/pico/src/state.c:837-879 | entering eco saves the setpoint and mode and lowers the setpoint; leaving restores them and goes to idle or heating by the saved mode |
| PicoState.EcoRefusals | src/pico/src/state.c:837-862 | eco is entered exactly from ready or idle when not brewing, and leaving is refused outside eco; refusals change nothing |
| PicoState.PhaseStepOnlyInPreinfusion | src/pico/src/state.c:444-462 | outside pre-infusion the phase step changes nothing |
| PicoState.PreinfusionSchedule | src/pico/src/state.c:444-462 | from the brew start the pump runs full for the on time, then pauses, then the full brew starts once on plus pause time has passed; without pre-infusion the full brew starts at once |
| PicoState.PhaseStepsReachFullBrew | src/pico/src/state.c:444-462 | over any run of updates the full brew is reached exactly when some update comes on plus pause time after the start |
| PicoState.FullBrewStays | src/pico/src/state.c:444-462 | once in full brew, later updates leave the phase alone |
| PicoState.EcoTimeoutFits | src/pico/src/state.c:621-624 | the eco timeout in milliseconds fits 32 bits |
| PicoState.EcoTimeoutAcrossWrap | src/pico/src/state.c:620-632 | idle time is measured modulo 2^32, so the eco timeout still fires across a wrap of the millisecond clock |
| PicoState.Machine.constructor | src/pico/src/state.c:272-322 | the globals start as the initial state, entry time at now included |
| PicoState.Machine.EntryAction | src/pico/src/state.c:149-226 | the globals become those after the state's entry action |
| PicoState.Machine.ExitAction | src/pico/src/state.c:228-270 | the globals become those after the state's exit action |
| PicoState.Machine.StartShot | src/pico/src/state.c:183-204 | entering brewing starts the shot timer at now, clears the stop time, runs the pump at full and starts pre-infusion when it is enabled, full brew otherwise; nothing else changes |
| PicoState.Machine.SaveForEco | src/pico/src/state.c:214-221 | entering eco saves the setpoint and mode and sets the eco brew temperature; nothing else changes |
| PicoState.Machine.RestoreFromEco | src/pico/src/state.c:230-237 | leaving eco restores the saved setpoint and mode and restarts the idle timer at now; nothing else changes |
| PicoState.Machine.EndShot | src/pico/src/state.c:239-261 | leaving brewing stops the shot timer at now unless it already stopped, stops the pump, stamps the post-brew start and enters the post-brew phase; nothing else changes |
| PicoState.Machine.MoveTo | src/pico/src/state.c:634-642 | a transition runs the exit action, records the previous state and runs the entry action |
| PicoState.Machine.StartBrewCmd | src/pico/src/state.c:684-706 | the command succeeds exactly when a brew may start, and the globals follow the specification |
| PicoState.Machine.StopBrewCmd | src/pico/src/state.c:708-723 | the command succeeds exactly when brewing, and the globals follow the specification |
| PicoState.Machine.SetModeCmd | src/pico/src/state.c:657-682 | the command succeeds exactly when the mode change is allowed |
| PicoState.Machine.SetPreinfusionCmd | src/pico/src/state.c:733-739 | the pre-infusion settings are stored as specified |
| PicoState.Machine.BrewDurationMs | src/pico/src/state.c:776-796 | the reported duration is the specified brew duration |
| PicoState.Machine.UpdateBrewPhase | src/pico/src/state.c:444-462 | one pass of the brewing case performs one phase step |
| PicoState.Machine.EnterEcoCmd | src/pico/src/state.c:837-857 | success exactly when eco may be entered |
| PicoState.Machine.ExitEcoCmd | src/pico/src/state.c:859-879 | success exactly when in eco |
| PicoState.Machine.SetEcoConfigCmd | src/pico/src/state.c:811-826 | the globals follow the eco-settings specification |
| PicoState.Machine.ResetIdleTimerCmd | src/pico/src/state.c:881-888 | the globals follow the idle-timer specification |
| ConfigPersistence.CrcValue | src/pico/src/config_persistence.c:53-69 | the checksum is a 32-bit value |
| ConfigPersistence.ReadRecord | src/pico/src/config_persistence.c:122-156 | a record is read back exactly when its magic, version and checksum are intact, and it is then the page's first record-size bytes |
| ConfigPersistence.Sealed | src/pico/src/config_persistence.c:171-173 | sealing changes only the checksum field at the end of the record |
| ConfigPersistence.Page | src/pico/src/config_persistence.c:175-178 | the programmed page is one flash page, the sealed record padded with 0xFF |
| ConfigPersistence.Defaults | src/pico/src/config_persistence.c:75-116 | the default record has the record's size |
| ConfigPersistence.Reset | src/pico/src/config_persistence.c:367-380 | a reset record has the record's size |
| ConfigPersistence.Stamped | src/pico/src/config_persistence.c:325-327 | a stamped record has the record's size |
| ConfigPersistence.WithCleaning | src/pico/src/config_persistence.c:395-401 | the record with new cleaning settings keeps the record's size |
| ConfigPersistence.WithEco | src/pico/src/config_persistence.c:434-441 | the record with new eco settings keeps the record's size |
| ConfigPersistence.PowerMeterOf | src/pico/include/config_persistence.h:33-78 | the power meter settings are a fixed-size field of the record |
| ConfigPersistence.WithPowerMeter | src/pico/src/config_persistence.c:478-484 | the record with new power meter settings keeps the record's size |
| ConfigPersistence.Collected | src/pico/src/config_persistence.c:284-327 | the record a full save assembles keeps the record's size |
| ConfigPersistence.CrcFromTrace | src/pico/src/config_persistence.c:53-69 | a register trace that follows the byte step computes the checksum |
| ConfigPersistence.Crc32CheckValue | src/pico/src/config_persistence.c:53-69 | the checksum of "123456789" is 0xCBF43926, the standard CRC-32 check value, and agrees with the table-driven CRC-32 of the self-test |
| ConfigPersistence.WriteReadRoundTrip | src/pico/src/config_persistence.c:122-193 | a record with the right magic and version, once written, reads back as that record sealed; an erased page reads nothing |
| ConfigPersistence.StampedFields | src/pico/src/config_persistence.c:325-327 | stamping sets the magic and the version and keeps every setting |
| ConfigPersistence.SavedRecordsReadBack | src/pico/src/config_persistence.c:284-336 | every record a saver writes successfully reads back on the next load |
| ConfigPersistence.DefaultSettings | src/pico/src/config_persistence.c:75-116 | the defaults carry the magic and version, a zeroed environment, the default setpoints, the sequential strategy and pre-infusion off |
| ConfigPersistence.DefaultsDisableMachine | src/pico/src/config_persistence.c:82-84 | with the default record the machine stays disabled until the environment is configured |
| ConfigPersistence.EnvValidMeans | src/pico/src/config_persistence.c:199-213 | the environment is valid exactly when the voltage is 100-250 V and the current limit is above 0 A and at most 50 A |
| ConfigPersistence.EnvValidAsWritten | src/pico/src/config_persistence.c:199-213 | as written, the environment check accepts what the intended one accepts and also a NaN current limit with a valid voltage |
| ConfigPersistence.EnvTestsDiffer | src/pico/src/config_persistence.c:208-210 | the test as written accepts exactly the valid environments plus those whose current limit is NaN |
| ConfigPersistence.NaNCurrentAccepted | src/pico/src/config_persistence.c:208-210 | as written, 230 V with a NaN current limit passes the test although it is no limit |
| ConfigPersistence.ResetKeepsEnvironment | src/pico/src/config_persistence.c:367-380 | a reset restores every default but keeps the environment and its validity, and resetting twice is resetting once |
| ConfigPersistence.CleaningSaved | src/pico/src/config_persistence.c:386-413 | the cleaning saver changes only the two cleaning fields, and saving the stored values again is recognised as unchanged |
| ConfigPersistence.EcoSaved | src/pico/src/config_persistence.c:424-453 | the eco saver changes only the three eco fields |
| ConfigPersistence.PowerMeterSaved | src/pico/src/config_persistence.c:467-495 | the power meter saver changes only the power meter field |
| ConfigPersistence.CollectedKeepsSettings | src/pico/src/config_persistence.c:284-327 | a full save takes the live environment and keeps the cleaning, eco and power meter settings as stored |
| ConfigPersistence.Store.constructor | src/pico/src/config_persistence.c:44-47 | a new store holds a zeroed record, not loaded, with the environment not valid |
| ConfigPersistence.Store.ShiftByte | src/pico/src/config_persistence.c:58-65 | one byte folded into the register is one specified byte step |
| ConfigPersistence.Store.Crc32Calculate | src/pico/src/config_persistence.c:53-69 | the loop computes the specified checksum of the data |
| ConfigPersistence.Store.FlashReadConfig | src/pico/src/config_persistence.c:122-156 | the read follows the record-reading specification |
| ConfigPersistence.Store.FlashWriteConfig | src/pico/src/config_persistence.c:168-193 | success exactly when erase and program both succeed, and the flash ends as specified for those outcomes |
| ConfigPersistence.Store.Load | src/pico/src/config_persistence.c:338-348 | success exactly when flash holds an intact record, which then becomes the configuration |
| ConfigPersistence.Store.Init | src/pico/src/config_persistence.c:219-278 | an intact record is loaded and the machine may operate exactly when its environment is valid; otherwise the defaults are used and the machine is disabled |
| ConfigPersistence.Store.Save | src/pico/src/config_persistence.c:284-336 | the configuration becomes the assembled record and is written; success exactly when erase and program succeed |
| ConfigPersistence.Store.Set | src/pico/src/config_persistence.c:356-365 | the record is taken as given and its environment revalidated |
| ConfigPersistence.Store.ResetToDefaults | src/pico/src/config_persistence.c:367-380 | the configuration becomes the reset record and its validity is recomputed |
| ConfigPersistence.Store.IsSetupMode | src/pico/src/config_persistence.c:382-384 | setup mode exactly when the environment is not valid |
| ConfigPersistence.Store.SaveCleaning | src/pico/src/config_persistence.c:386-413 | unchanged settings succeed without a flash write; otherwise the record is updated, stamped and written |
| ConfigPersistence.Store.SaveEco | src/pico/src/config_persistence.c:424-453 | unchanged settings succeed without a flash write; otherwise the record is updated, stamped and written |
| ConfigPersistence.Store.SavePowerMeter | src/pico/src/config_persistence.c:467-495 | no settings fail and unchanged settings succeed without a flash write; otherwise the record is updated, stamped and written |
| ConfigPersistence.Store.GetEco | src/pico/src/config_persistence.c:455-465 | the eco settings read are a 16-bit timeout and a 16-bit signed temperature |
| ConfigPersistence.Store.GetCleaning | src/pico/src/config_persistence.c:415-422 | the cleaning settings read are two 16-bit values |

## Left out

- I/O, timers and clocks, FreeRTOS tasks, mutexes and interrupts become parameters or are left out. Each model is single-threaded. The time "now" is an argument.
- The cloud connection's allocation of a message copy succeeds or fails as a whole: `allocOk` stands for the PSRAM allocation and the heap fallback together. The `send(JsonDocument)` overload, which serializes the document into the copy, is left out with the JSON serialization.
- The cloud connection's websocket life cycle (`connect`, `handleEvent`, `handleMessage`, `taskCode`) is I/O and is left out. Only the send queue and message framing are modelled.
- The second, aggressive pass of `processSendQueue` is left out. Without a concurrent producer it cannot be reached: after at most 10 messages are removed, at least 10 places are free.
- Floating point is not modelled:
  - floats are carried as IEEE bit patterns where they are stored;
  - two are exact reals instead: the statistics' average brew time `avgBrewTimeMs`, and Python `float` values in the Home Assistant integration (`PyValues.VFloat`), so neither rounds;
  - otherwise they are left out: `kwhToday`, the float fields of a shot record, MessagePack float encoding, and the statistics' kWh figures.
- Some headers are not part of this model. The model assumes:
  - the order of the notification type enumeration;
  - the log level enumeration ERROR, WARN, INFO, DEBUG, numbered 0 to 3;
  - zero defaults for the statistics manager's fields.
- Only part of `state_update` is modelled: the pre-infusion phase step and the eco timeout. The temperature thresholds, the brew switch, the safety and fault flags and the weight stop are left out.
- The solenoid GPIO and `cleaning_record_brew_cycle` are left out.
- `config_persistence_init` applies the loaded settings to other modules, and falls back from an invalid heating strategy. Both are left out.
- The internals of the safe flash routines are not part of this model. An erase failure leaves the page as it was. A program failure after the erase leaves the page erased.
- CRC-32 is proved for its check value and its table, not for linearity or injectivity.
- The power meter's `send_modbus_request` always reports success, so the "failed to send" branch cannot be reached and is not modelled.
- The ESP32's routing of message types other than those modelled is left out.
- The JSON serialization of the state types and statistics (`toJson` / `fromJson`) is left out.
- The formatting in `addLogf` and the internals of log forwarding to the ESP32 are left out.
- Parts of the statistics manager are left out: its loop, `updatePower`, day-change handling, flash persistence and the session on-time.
- Python's `int()` and `float()` are modelled for an optional sign, digits and an optional decimal point. Exponents, surrounding whitespace, underscores, `inf` and `nan` are not.
- StatisticsManager.AddBrew: the average brew time is the exact quotient of total brew time by shots, where `recordBrew` divides in `float` (statistics_manager.cpp:277) and rounds; the total brew time is an unbounded natural, where the source adds in place (:261) to a field it reads back as `uint32_t` (:113), so after 2^32 ms of brewing the source's total wraps and this one does not.
- StatisticsManager.LifetimeDescribesBrews: states the total as the exact sum of all durations and the mean as an exact real, for any number of brews; the source's total wraps at 2^32 ms and its mean is a rounded `float` (see StatisticsManager.AddBrew).
- StatisticsManager.Manager.RecordBrew: updates the lifetime counters by StatisticsManager.AddBrew, so it has the same exact average and unbounded total.
- LogManager.PicoBroadcast: follows the code's comparison `level >= INFO` on the enumeration order, so errors and warnings are never broadcast.
- StatisticsManager.MaintenanceDue: states the days overdue only when the last service time is not after now.
- The test-only `reset_stats` of the Pico protocol zeroes the pending-command count without clearing the slots; it is left out.
- The protocol's `PROTOCOL_MAX_PENDING_CMDS` and backpressure threshold are parameters of the model (a positive maximum and a threshold), because their defining header is not part of this model.
- PicoProtocol.ProtocolLink.Resend: runs the corrected retry, which keeps the sent time when the UART refuses the resend; protocol.c:194 sets `sent_time_ms` to now before the write at line 216, so as written a dropped resend restarts the ACK timeout (see Findings).
- PicoProtocol.ProtocolLink.RetryDropped: keeps the sent time of a refused resend, as the corrected retry does; as written it is already now (protocol.c:194).
- PicoProtocol.ProtocolLink.RetryResend: charges the corrected retry of one slot, not the as-written one that restarts the timeout of a dropped resend.
- PicoProtocol.ProtocolLink.RetryOne: charges the corrected retry of one slot, not the as-written one that restarts the timeout of a dropped resend.
- PicoProtocol.ProtocolLink.ScanOne: keeps the scanned prefix equal to the corrected retry pass, not the as-written one.
- PicoProtocol.ProtocolLink.ProcessPendingCommands: leaves the table as the corrected retry pass; as written a dropped resend's slot also gets the sent time now.
- PicoProtocol.ProtocolLink.Housekeeping: runs the corrected retry pass (see PicoProtocol.ProtocolLink.Resend).
- PicoProtocol.ProtocolLink.ProtocolProcess: runs the corrected retry pass (see PicoProtocol.ProtocolLink.Resend).
- Esp32PicoUart.Step: is the corrected parser step, in which the byte completing a frame has one effect; as written (pico_uart.cpp:106-121) the byte completing a frame with length field 59 also counts an overflow error.
- Esp32PicoUart.Feed: folds the corrected parser step (see Esp32PicoUart.Step).
- Esp32PicoUart.PicoUart.ProcessByte: runs the corrected parser step (see Esp32PicoUart.Step).
- Esp32PicoUart.PicoUart.ConsumeByte: runs the corrected parser step (see Esp32PicoUart.Step).
- Esp32PicoUart.PicoUart.CrcByte: clears the buffer of a completed frame, as the corrected step does (see Esp32PicoUart.Step).
- Esp32PicoUart.PicoUart.Loop: feeds the bytes through the corrected parser step (see Esp32PicoUart.Step).
- Esp32PicoUart.PicoUart.ReceiveNext: feeds one byte through the corrected parser step (see Esp32PicoUart.Step).
- Esp32ProtocolHandler.UpdateBackoff: is the corrected backoff, taken from the count before the overload reset; as written (pico_protocol_handler.cpp:145-162) the eleventh NACK within 5 s resets the count first and gives a 0 ms backoff.
- Esp32ProtocolHandler.PicoProtocolHandler.UpdateBackoffAt: applies the corrected backoff (see Esp32ProtocolHandler.UpdateBackoff).
- Esp32ProtocolHandler.PicoProtocolHandler.HandleNack: applies the corrected backoff (see Esp32ProtocolHandler.UpdateBackoff).
- Esp32ProtocolHandler.PicoProtocolHandler.HandlePacket: applies the corrected backoff to a NACK (see Esp32ProtocolHandler.UpdateBackoff).
- ClassBCrc32.Crc32Update: uses the polynomial's CRC-32 table; the table as written (class_b.c:128) has 0xCDD706B3 at entry 245 where the polynomial gives 0xCDD70693.
- ClassB.ClassBMonitor.CrcFlashIncremental: computes the flash CRC with the polynomial's table (see ClassBCrc32.Crc32Update).
- ClassB.ClassBMonitor.TestFlash: compares a flash CRC computed with the polynomial's table (see ClassBCrc32.Crc32Update).
- ClassB.ClassBMonitor.Init: records the reference flash CRC computed with the polynomial's table (see ClassBCrc32.Crc32Update).
- ClassB.ClassBMonitor.TestClock: uses the bounds computed without overflow; as written (class_b.c:448-449) the 32-bit products overflow and every clock fails.
- ClassB.ClassBMonitor.StartupTest: runs the corrected clock test and CRC table (see ClassB.ClassBMonitor.TestClock and ClassBCrc32.Crc32Update).
- ClassB.ClassBMonitor.PeriodicLater: runs the corrected clock test (see ClassB.ClassBMonitor.TestClock).
- ClassB.ClassBMonitor.PeriodicTest: runs the corrected clock test and CRC table (see ClassB.ClassBMonitor.TestClock and ClassBCrc32.Crc32Update).
- Modbus.ReceiveResponse: stops at the declared byte count plus five, computed without wrap-around; as written (power_meter.c:236-237) the sum is a `uint8_t` and wraps for counts 251 to 255, so five bytes already look complete.
- PowerMeter.ReceivedFrameFits: relies on the unwrapped expected length (see Modbus.ReceiveResponse).
- PowerMeter.Poll: receives with the unwrapped expected length (see Modbus.ReceiveResponse).
- PowerMeter.PowerMeterDriver.Update: receives with the unwrapped expected length (see Modbus.ReceiveResponse).
- PowerMeter.PowerMeterDriver.AutoDetect: receives with the unwrapped expected length (see Modbus.ReceiveResponse).
- LogManager.Step: is the corrected byte step, which drops the oldest line of a full ring; as written (log_manager.cpp:128-137) the eviction scan starts with the tail on the head, so it never runs, and without newlines the tail never moves.
- LogManager.StepEvicts: is about the corrected byte step (see LogManager.Step).
- LogManager.StepLive: is about the corrected byte step (see LogManager.Step).
- LogManager.HoldsStep: is about the corrected byte step (see LogManager.Step).
- LogManager.WriteAllHolds: is about the corrected write loop (see LogManager.Step).
- LogManager.EvictCount: counts the characters the corrected eviction drops (see LogManager.Step).
- LogManager.SizeField: is `_size` as the corrected step keeps it (see LogManager.Step).
- LogManager.LiveLength: measures the held text with a branch on the head passing the tail, which `getLogs` (log_manager.cpp:227-241) does not have (see Findings).
- LogManager.Live: reads the held text from the tail up to the head, not as `getLogs` does when a wrapped ring's head is past its tail (see LogManager.LiveLength).
- LogManager.LiveSlices: slices the held text as the corrected download does; as written `getLogs` takes the wrapped branch on `_wrapped` alone (see Findings).
- LogManager.LogManager.WriteToBuffer: runs the corrected byte step (see LogManager.Step).
- LogManager.LogManager.WriteChar: runs the corrected byte step (see LogManager.Step).
- LogManager.LogManager.EvictLine: runs the corrected eviction (see LogManager.Step).
- LogManager.LogManager.AddLog: writes through the corrected byte step (see LogManager.Step).
- LogManager.LogManager.GetLogs: downloads the held text, branching on the head passing the tail; as written (log_manager.cpp:227-241) a wrapped ring whose head is past its tail gives more than the buffer (see Findings).
- StateTypes.ScheduleAddedAt: is about the corrected add, which refuses an id that would not fit in 8 bits; as written (state_types.cpp:756-767) the id wraps to 0 and the count still goes up.
- StateTypes.AddedTableValid: is about the corrected add (see StateTypes.ScheduleAddedAt).
- StateTypes.AddScheduleSteps: is about the corrected add (see StateTypes.ScheduleAddedAt).
- StateTypes.ScheduleSettings.AddSchedule: runs the corrected add (see StateTypes.ScheduleAddedAt).
- StateTypes.ScheduleSettings.StoreWithNextId: puts the slot back when the id wraps, as the corrected add does (see StateTypes.ScheduleAddedAt).
- StateTypes.ScheduleSettings.RemoveSchedule: refuses id 0; as written (state_types.cpp:769-778) removing id 0 clears the first unused slot, reports success and lowers the count.
- ConfigPersistence.Store.Init: validates with the intended environment check, which rejects a NaN current limit; as written (config_persistence.c:208-210) NaN passes.
- ConfigPersistence.Store.Set: revalidates with the intended environment check (see ConfigPersistence.Store.Init).
- ConfigPersistence.Store.ResetToDefaults: revalidates with the intended environment check (see ConfigPersistence.Store.Init).
- Cloud.CloudConnection.ProcessSendQueue: tests the binary marker at offset 4 only when the queued copy is long enough to hold it; as written (cloud_connection.cpp:776) the byte is read past a shorter copy, which C++ leaves undefined (see Findings).

## Findings

| source | as written | input that shows it | evidently intended | confidence | as-written member | corrected member |
|---|---|---|---|---|---|---|
| src/esp32/src/pico_uart.cpp:106-121 | the overflow check runs after a frame completes, while the index still points past the frame | a frame with length field 59: its last byte both completes the frame and counts an overflow error | each byte that completes a frame has exactly one effect | high, not executed | Esp32PicoUart.LongestFrameCountedTwiceAsWritten, Esp32PicoUart.Length59FrameAsWritten | Esp32PicoUart.FrameCountedOnce |
| src/pico/src/power_meter.c:236-237 | `uint8_t expected_len = buffer[2] + 5` wraps for byte counts 251 to 255 | 01 04 FB 00 00 is taken as a complete response | the expected length is the byte count plus five, without wrap-around | high, not executed | Modbus.ExpectedLengthWraps | Modbus.ReceiveStopsAtFrameEnd |
| src/esp32/src/pico_protocol_handler.cpp:145-162 | the eleventh NACK within 5 s resets the count to 0 before the backoff is computed | eleven NACKs 100 ms apart: the last one gives a 0 ms backoff | the heaviest NACK rate keeps the largest backoff, 500 ms | medium, not executed | Esp32ProtocolHandler.OverloadClearsBackoffAsWritten | Esp32ProtocolHandler.OverloadKeepsBackoff |
| src/pico/src/class_b.c:128 | CRC-32 table entry 245 is 0xCDD706B3 | the single byte 0x0A gives 0x32D706B3 | entry 245 is 0xCDD70693, so the byte 0x0A gives 0x32D70693 | high, not executed | ClassBCrc32.Entry245AsWritten | ClassBCrc32.Crc32CheckValue |
| src/pico/src/class_b.c:443-461 | `125000000 * 95` and `125000000 * 105` overflow a 32-bit int | the nominal 125 MHz clock fails, because the bounds become 4284868278 and 2400981 | a clock passes when it is within 5% of 125 MHz | high, not executed | ClassB.ClockBoundsAsWritten | ClassB.ClockTolerance |
| src/pico/src/protocol.c:190-222 | a retry sets the sent time before the write, so a dropped resend restarts the timeout | a command sent at 0 with timeout 100, retried at 101 while the UART is busy, is not overdue at 102 | a dropped resend keeps the slot overdue, as the code's own comment says | medium, not executed | PicoProtocol.DroppedRetryDeferredAsWritten | PicoProtocol.DroppedRetryStaysDue |
| src/esp32/src/state/state_types.cpp:756-767 | the next schedule id is an 8-bit value that wraps to 0 after 255 | a table holding only id 255: adding reports id 0, and the count becomes 2 while one slot is used | a new schedule gets a fresh non-zero id and the count matches the used slots | medium, not executed | StateTypes.AddScheduleWraps | StateTypes.AddScheduleKeepsTable |
| src/esp32/src/state/state_types.cpp:769-778 | removing id 0 matches an unused slot, whose id is 0 | an empty table: removing 0 reports success and the count wraps to 255 | only a stored, non-zero id can be removed | medium, not executed | StateTypes.RemoveZeroMiscounts | StateTypes.ScheduleSettings.RemoveSchedule |
| src/pico/src/config_persistence.c:208-210 | the current limit is rejected only when `<= 0 \|\| > 50`, and both comparisons are false for NaN | 230 V with current bits 0x7FC00000 is accepted | only a current limit in (0, 50] A is accepted | medium, not executed | ConfigPersistence.NaNCurrentAccepted | ConfigPersistence.EnvValidMeans |
| src/esp32/src/log_manager.cpp:128-137 | the eviction scan starts with the tail equal to the head, so its loop never runs, and without newlines the tail never moves | 51201 characters without a newline, written into a cleared ring: the download is 51201 characters, more than the reported size | a full ring drops its oldest line, so a download never exceeds the ring | high, not executed | LogManager.AsWrittenOverlong | LogManager.LiveFits |
| src/esp32/src/cloud_connection.cpp:776 | `msgPtr[4]` is read to detect a binary marker even when the queued copy is shorter than five bytes | the text "{}" is copied as three bytes | the marker is tested only on copies long enough to hold it | medium, not executed | Cloud.ShortTextReadsPastCopy | Cloud.TextRoundTrip |
| src/esp32/src/log_manager.cpp:227-241 | `getLogs` reads tail-to-end then start-to-head whenever `_wrapped` is set, even when the head is past the tail | a cleared ring after 51201 characters without a newline (tail 0, head 1, wrapped): the download repeats the held text and exceeds the buffer | a wrapped ring whose head is past its tail is read from the tail up to the head | high, not executed | LogManager.GetLogsRepeatsAsWritten | LogManager.LiveSlices |
