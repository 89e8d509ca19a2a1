# libiot: a verified model of the IoT firmware core

This project models the core of `src/libiot.cpp`, the support library of an ESP32 sensor
node. The node keeps a TLS MQTT session to a broker, publishes a JSON telemetry envelope
of its sensor readings, and takes commands on a subscription topic. A command is either a
firmware-update request on the OTA topic or an alert message to display.

The model covers:

- **Clock** (`clock.dfy`): `millis()` is an unsigned 32-bit counter. Every timer
  compares `now - stamp` in that type, so elapsed time is taken modulo 2^32.
  `Since` is that difference. `IntervalPassed` is the strict gate
  `now - last > interval` used by `measure` and by the MQTT healthcheck. `Expired` is
  the alert gate `now - since >= duration`.
- **Routing** (`router.dfy`): the payload is rebuilt byte by byte
  (`AssemblePayload`, a loop over an array). Then the message is classified:
  - the OTA topic wins first, whatever the payload says;
  - on another topic, a payload containing the case-sensitive substring "ALERT"
    becomes the alert, whole;
  - anything else is ignored.
- **Alert** (`alert.dfy`): the globals `alert` and `alertTime`, read by `checkAlert`.
- **Sampling** (`sensors.dfy`, `sampler.dfy`): the two-rate `measure`. A full sample
  happens only when more than `MEASURE_INTERVAL * 1000` ms have passed. It rewrites the
  caller's `SensorData` record in place. The heart-rate sensor's update step runs on
  every call.
- **Session** (`session.dfy`, `events.dfy`, `decimal.dfy`): the `reconnect` loop.
  - It runs over an injected sequence of connection outcomes.
  - A success re-installs the callback, subscribes at QoS 1, and drains twice
    (`client.loop()` plus 100 ms), with `setupOTA` in between.
  - A failure sets the alert to "MQTT error: <state>".
  - State 5 (`MQTT_CONNECT_UNAUTHORIZED`) puts the device into deep sleep for good.
  - Any other failure waits 5000 ms and tries again.
  - `checkMQTT` reconnects when needed, runs `client.loop()`, and reports a
    healthcheck every 30 s (strictly more).
- **Device identifier** (`device_id.dfy`): `getMacAddress` formats
  "ESP32-%02X…%02X" into an 18-byte buffer with `snprintf`.
- **Telemetry** (`telemetry.dfy`): the envelope `sendSensorData` publishes, as an
  ordered list of keyed values.
- **Firmware** (`device.dfy`): the class `Device`.
  - It holds the globals and statics that the functions above update in place
    (`alert`, `alertTime`, `measureTime`, `lastMQTTDebug`) and the MQTT session state
    (`link`: down, up, or asleep after `ESP.deepSleep(0)`).
  - It records every externally visible effect in `trace`: MQTT calls, delays, OTA
    hand-offs, sensor updates and publishes.
  - Each source function is a method whose postcondition ties the new state to the
    pure specification in the modules above.

Inputs from the outside world are parameters:
- clock readings (`now`);
- connection outcomes (`Session.Attempt`);
- whether `client.loop()` lost the link;
- the sensor drivers' readings (`Sensors.Readings`);
- the MAC address;
- the epoch time.

Where the documented behaviour of the system and the code differ, the model follows the
code:

- **Strict gate.** The sampling gate is strict (`>`, src/libiot.cpp:270). With a 5 s
  interval and calls at 1 s … 6 s, the only full sample is at 6 s, not 5 s
  (`Sampler.FiveSecondSeries`).
- **Twelve keys.** The envelope has twelve keys: ten sensor fields, `timestamp` and
  `device_id`.
- **Alert behaviour.** The documented alert contract says a raise stamps the alert and
  an expired query answers "OK". The code does neither:
  - raising sets only the message (src/libiot.cpp:172, :426);
  - the query that finds the alert expired clears it, stamps the clear time, and
    answers the now-empty message "" (src/libiot.cpp:332-336).

  `Alert.Raise`/`Alert.Query` and `Firmware.Device` model the code. The consequence is
  proved in `Alert.LateRaiseNeverShown`: an alert raised when the last stamp is already
  older than the duration is cleared by the next query and never shown.
  `Alert.RaiseIntended`/`Alert.QueryIntended` model the documented contract, and the
  expiry and overwrite properties are proved about them.

## Model

| member | source | states |
|---|---|---|
| Clock.Since | src/libiot.cpp:98 | unsigned 32-bit `now - since`: adding it to `since` gives `now` modulo 2^32; it is `now - since` without a wrap and `2^32 - since + now` across one |
| Clock.SinceZero | src/libiot.cpp:98 | the elapsed time is zero exactly when the two readings are equal |
| Clock.SecondsToMillis | src/libiot.cpp:270 | `seconds * 1000` as a millisecond threshold: a whole number of seconds, recoverable by dividing by 1000 |
| Clock.IntervalPassed | src/libiot.cpp:98 | the strict gate `now - last > interval` in unsigned 32-bit arithmetic: `now - last` without a wrap, `2^32 - last + now` across one; it never passes when the two readings are equal |
| Clock.Expired | src/libiot.cpp:332 | the alert gate `now - since >= duration`, with the same wrap-around cases; a zero duration has always expired |
| Decimal.NatToStringInverse | src/libiot.cpp:172 | the decimal text of a natural number is non-empty, all digits, has no leading zero, and reads back as the number |
| Decimal.IntToString | src/libiot.cpp:172 | `String(int)` is never empty and starts with '-' exactly when the integer is negative |
| Decimal.IntToStringInverse | src/libiot.cpp:172 | `String(int)` round trip: parsing the text of any integer, negative ones included, gives the integer back |
| Decimal.IntToStringInjective | src/libiot.cpp:172 | distinct integers have distinct texts, in both directions |
| Session.ErrorMessageInverse | src/libiot.cpp:172 | the alert "MQTT error: <state>" reads back to exactly the state code |
| Session.AttemptEvents | src/libiot.cpp:134-176 | one pass starts with its only `client.connect` and records at least one more event; it ends in the deep sleep exactly when the outcome is the unauthorized failure |
| Session.FirstStop | src/libiot.cpp:123-176 | the pass that ends the loop: every earlier outcome is a retryable failure, and the one at the index (if any) is a success or unauthorized |
| Session.Passes | src/libiot.cpp:123-176 | the number of passes is the stop index, plus one exactly when a stop occurs among the outcomes |
| Session.Pass | src/libiot.cpp:134-176 | after one pass the link is down exactly on a retryable failure and up exactly on a success; a success keeps the alert; the pass appends its own events |
| Session.PassAll | src/libiot.cpp:123-177 | the passes, in order, record at least two events each |
| Session.AlertAfterLoop | src/libiot.cpp:170-175 | the alert the loop leaves: the old one when the first pass stops it with a success or no outcome is given, and otherwise the error of a pass that failed |
| Session.PassAllEvents | src/libiot.cpp:123-177 | the passes append exactly the events of the run, in order, to what was recorded before |
| Session.PassAllLink | src/libiot.cpp:123-174 | from a down link the session stays down through the retryable failures, then is up after a success and asleep after an unauthorized failure |
| Session.PassAllAlert | src/libiot.cpp:170-172 | after n passes the alert is the error of the last pass if it failed, else that of the failure before it, else the starting alert |
| Session.LoopOutcome | src/libiot.cpp:122-178 | the whole loop from a down link: its session, alert and events after `Passes` passes, in closed form |
| Session.LoopTotals | src/libiot.cpp:134-175 | the whole loop from a down link makes one connect per pass and delays 5000 ms per retryable failure plus 200 ms if it connected |
| Session.OneConnectPerPass | src/libiot.cpp:134 | every pass makes exactly one `client.connect` |
| Session.PassDelay | src/libiot.cpp:157-175 | one pass delays 2 x 100 ms after a success, 5000 ms after a retryable failure, nothing before the deep sleep |
| Session.RetryPacing | src/libiot.cpp:167-176 | n retryable failures produce 2n events and exactly 5000 n ms of delay |
| Session.RunStartsWithConnect | src/libiot.cpp:134 | every non-empty run starts with a connection attempt |
| Session.AttemptStart | src/libiot.cpp:123-176 | attempt m starts at event 2m, after exactly m retry waits (5000 m ms) |
| Session.FinalPass | src/libiot.cpp:134-174 | an unauthorized final pass ends with connect then deep sleep; a successful one re-installs the callback before subscribing to the command topic at QoS 1 |
| Session.RunDelay | src/libiot.cpp:157-175 | the loop's total delay is 5000 ms per retryable failure plus 200 ms if it connected |
| Session.AlertNamesFinalFailure | src/libiot.cpp:170-174 | when the loop ends on an unauthorized failure, the alert reads back to that failure's state code |
| Session.AlertNamesRetriedFailure | src/libiot.cpp:170-175 | when the loop connects or runs out of outcomes, the alert reads back to the last retryable failure's code, or is the old alert if no pass failed |
| Session.TwoFailuresThenConnect | src/libiot.cpp:123-176 | two generic failures then a success: three connects, 10200 ms of delay, link up |
| DeviceId.Formatted | src/libiot.cpp:113 | the text the format string describes is 18 characters long |
| DeviceId.GetMacAddress | src/libiot.cpp:109-116 | the identifier is 17 characters, a proper prefix of the 18-character formatted text |
| DeviceId.DeviceIdIntended | src/libiot.cpp:113-114 | with a 19-byte buffer the identifier is the whole formatted text |
| DeviceId.Snprintf | src/libiot.cpp:113 | `snprintf` keeps a prefix of the formatted text, of length at most `size - 1` |
| DeviceId.HexBytesAt | src/libiot.cpp:113 | byte i of the MAC gives its high digit at position 2i and its low digit at 2i + 1 |
| DeviceId.HexBytesInverse | src/libiot.cpp:113 | `%02X` formatting of a byte sequence reads back exactly |
| DeviceId.GetMacAddressShape | src/libiot.cpp:109-116 | the identifier is 17 characters: "ESP32-", two digits for each of the first five bytes, and only the high digit of the sixth |
| DeviceId.GetMacAddressCollides | src/libiot.cpp:109-116 | two MACs get the same identifier exactly when they agree on the first five bytes and the high nibble of the sixth |
| DeviceId.TruncatedIdsCollide | src/libiot.cpp:111-114 | the MACs ...:CD:E0 and ...:CD:EF get the same identifier |
| DeviceId.DeviceIdIntendedInverse | src/libiot.cpp:113-114 | with a 19-byte buffer the identifier is "ESP32-" plus 12 hex digits and reads back as the MAC |
| DeviceId.DeviceIdIntendedInjective | src/libiot.cpp:113-114 | with a 19-byte buffer distinct MACs always get distinct identifiers |
| Router.IndexOfFrom | src/libiot.cpp:424 | `indexOf` from a position: the first occurrence at or after it, or -1 exactly when none starts before the end of the text (Arduino's guard: nothing is found at or past the end, even for an empty pattern) |
| Router.IndexOf | src/libiot.cpp:424 | `indexOf(pat) >= 0` exactly when the text contains the pattern, and then it is the first occurrence |
| Router.PayloadText | src/libiot.cpp:390-393 | the payload text has one character per byte, and character i has the code of byte i |
| Router.Classify | src/libiot.cpp:417-429 | the update route is taken exactly on the OTA topic and carries the payload; an alert carries the whole payload |
| Router.AssemblePayload | src/libiot.cpp:390-393 | the rebuilt text has `length` characters, and character i is byte i of the payload |
| Router.OtaTopicWins | src/libiot.cpp:417-421 | a message on the OTA topic goes to the updater, never to the alert, even if it contains "ALERT" |
| Router.AlertRouting | src/libiot.cpp:424-429 | on another topic the whole payload becomes the alert exactly when it contains "ALERT", and is ignored exactly when it does not |
| Router.MarkerIsCaseSensitive | src/libiot.cpp:424 | "alert" is ignored, "ALERT" raises an alert |
| Sensors.ShtFailureKeepsClimate | src/libiot.cpp:274-284 | a failed SHT read leaves the previous temperature and humidity |
| Sensors.ApplyReadings | src/libiot.cpp:274-307 | a good SHT read sets temperature and humidity; heart rate and SpO2 come from the oximeter; acceleration is the raw count over 16384 LSB/g (so within [-2 g, 2 g)) and rotation the raw count over 131 LSB/(deg/s) |
| Sensors.ApplyReadingsOverwrites | src/libiot.cpp:286-307 | every other field comes from this sample alone, and with a good SHT read nothing of the previous record survives |
| Sampler.LastSampleHolds | src/libiot.cpp:270-271 | after a full sample at call i and none since, `measureTime` still holds that call's time |
| Sampler.LastSample | src/libiot.cpp:270-271 | `measureTime` after a series of calls is the starting stamp or the time of one of the calls |
| Sampler.RateSeparation | src/libiot.cpp:270-271 | after a full sample at time t, a later call samples exactly when more than the interval has passed since t |
| Sampler.FiveSecondSeries | src/libiot.cpp:270 | 5 s interval, calls at 1 s … 6 s: no full sample before 6 s, one at 6 s |
| Telemetry.Encode | src/libiot.cpp:347-358 | the envelope carries exactly the twelve keys, in the order the document is built; `timestamp` holds the epoch time and `device_id` the identifier |
| Telemetry.EnvelopeKeysDistinct | src/libiot.cpp:347-358 | no key occurs twice |
| Telemetry.LookupDistinct | src/libiot.cpp:347-358 | in an envelope with distinct keys, looking up a field's key finds that field |
| Telemetry.DecodeEncode | src/libiot.cpp:343-361 | decoding an envelope gives back the sample, timestamp and identifier it was built from |
| Alert.Raise | src/libiot.cpp:426 | raising sets the message and leaves the stamp as it was |
| Alert.Query | src/libiot.cpp:330-338 | the slot is kept or cleared and stamped with now; a non-empty alert is answered with the message the slot then holds ("" if cleared), an empty one with "OK" |
| Alert.QueryCases | src/libiot.cpp:330-338 | empty slot: "OK" and no change; live alert: answered and kept; expired alert: cleared, stamped with now, answered "" |
| Alert.QueryTwice | src/libiot.cpp:330-338 | a live alert is answered twice; an expired one is answered "" and then "OK" |
| Alert.ClearedStaysOk | src/libiot.cpp:331-336 | once an alert is cleared, every later query answers "OK" |
| Alert.LateRaiseNeverShown | src/libiot.cpp:330-338 | raising does not restart the timer: an alert raised when the stamp is older than the duration is cleared by the next query and answered "" |
| Alert.LateRaiseExample | src/libiot.cpp:330-338 | stamp 0, duration 10 s, alert raised at 60 s: the query 1 ms later answers "" |
| Alert.IntendedExpiry | src/libiot.cpp:325-329 | documented contract: after a raise at t0, a query at t answers the message exactly while fewer than `duration` ms have passed, then "OK" |
| Alert.IntendedOverwrite | src/libiot.cpp:325-329 | documented contract: a second raise replaces the first, message and timer |
| Alert.IntendedQueryReplies | src/libiot.cpp:325-329 | documented contract: a query never answers "", and an expired alert does not come back |
| Firmware.Device.constructor | src/libiot.cpp:76 | power-up state: empty alert, all stamps 0, link down, nothing recorded |
| Firmware.Device.CheckAlert | src/libiot.cpp:330-338 | the new slot and the reply are those of `Alert.Query` on the old slot |
| Firmware.Device.ReceivedCallback | src/libiot.cpp:380-431 | OTA topic: the rebuilt payload goes to the updater and the alert is unchanged; otherwise the alert becomes the payload (stamp untouched) exactly when it contains "ALERT" |
| Firmware.Device.Measure | src/libiot.cpp:269-323 | samples exactly when the strict interval gate passes, then moves `measureTime` to now and rewrites the record from the readings; otherwise the record is untouched; one sensor update either way |
| Firmware.Device.ConnectOnce | src/libiot.cpp:134-176 | one loop pass: session, alert and trace become `Session.Pass` of the old ones |
| Firmware.Device.Reconnect | src/libiot.cpp:122-178 | connected: no change; otherwise exactly `Passes` passes, the link, alert and delay of `Session.LoopOutcome`, one connect per pass |
| Firmware.Device.CheckMQTT | src/libiot.cpp:84-104 | reconnect if down; asleep ends the call, with the deep sleep as the last recorded event; else one `client.loop()`, the link follows `linkLost`, and a healthcheck is reported and its timer restarted exactly when more than 30 s have passed |
| Firmware.Device.SendSensorData | src/libiot.cpp:343-371 | appends one publish, on the telemetry topic, of the envelope of the current record, the epoch time and the full device identifier; nothing else changes |

## Left out

- Firmware.Device.SendSensorData: publishes `DeviceId.DeviceIdIntended`, the full identifier, not the truncated `getMacAddress` text (see Findings).
- Firmware.Device.Measure and Firmware.Device.CheckAlert: one reading `now` stands for the two `millis()` calls each makes (src/libiot.cpp:270-271, :332-334). The readings can differ by the time the call takes.
- Firmware.Device.CheckMQTT: requires that the outcomes end the reconnect loop. The firmware never returns from `reconnect` otherwise.
- Firmware.Device.Reconnect: a successful pass always ends the loop with the link up. The firmware re-tests `client.connected()` (src/libiot.cpp:123) after the two drains (:156, :162), and makes another full pass if the connection dropped during them; the model does not capture a link lost there. Session.LinkAfter, Session.LoopOutcome, Session.FinalPass and Session.OneConnectPerPass rest on the same assumption.
- Firmware.Device.Reconnect: runs over a finite sequence of outcomes. If every outcome is a retryable failure, the loop stops with the link down. That is a prefix of the firmware's endless retry.
- The subscribe result at src/libiot.cpp:148-153 is only logged, so the model ignores it.
- The second `client.state()` read at src/libiot.cpp:174 is taken to equal the first.
- Messages that arrive during `client.loop()` are modelled as separate `ReceivedCallback` calls.
- `setTime` (SNTP time sync and its 500 ms polling), `setupIoT`, `setupSHT`, `setupMAX30100`, `setupMPU6050` and `onBeatDetected` are hardware and library initialisation, outside the core. So are the `for(;;)` halts on sensor failure.
- `testMQTTCallback` is a diagnostic helper, outside the core.
- `getFirmwareVersion` is only logged.
- The OTA library (`setupOTA`, `checkOTAUpdate`) is an external collaborator. Its calls are recorded as events.
- The sensor drivers (SHT21, MAX30100, MPU6050) are modelled as the readings they return.
- `pox.update()` is recorded as an event.
- Floating point is modelled as real numbers. The divisions by 16384.0 and 131.0 are exact.
- ArduinoJson serialisation and its 512-byte document and buffer limits are modelled only as the ordered keyed envelope.
- The PubSubClient internals (TLS, packet encoding, the 1024-byte buffer) and the publish result, which is only logged, are not modelled.
- Serial logging and the `PRINT` macros are not modelled.
- `delay` is recorded as an event with its duration. Real time does not advance during it.
- Arduino `String` details are not modelled: a NUL byte in a payload, and `(char)` of bytes above 127 (taken as the code point of the byte).

## Findings

| source | as written | input that shows it | evidently intended | confidence | as-written member | corrected member |
|---|---|---|---|---|---|---|
| src/libiot.cpp:111-114 | `char macStr[18]` holds the 18-character "ESP32-" + 12 hex digits, so `snprintf` keeps 17 characters and drops the low digit of the last MAC byte | MACs 24:6F:28:AB:CD:E0 and 24:6F:28:AB:CD:EF both give "ESP32-246F28ABCDE" | a 19-byte buffer, so the identifier keeps all twelve digits and is unique per device | not executed | DeviceId.TruncatedIdsCollide | DeviceId.DeviceIdIntendedInjective |

The rest of the model publishes the corrected identifier (`Firmware.Device.SendSensorData`).
