/**
 * The firmware's connectivity, routing, alert and sampling logic over its global state.
 *
 * `Device` holds what libiot.cpp keeps in globals and statics (`alert`, `alertTime`,
 * `measureTime`, `lastMQTTDebug`) together with an abstraction of the MQTT client's session
 * (`link`). Everything the core does to the outside world is appended to `trace`;
 * the time spent in `delay` is `TotalDelay(trace)`. Clock readings, connection outcomes
 * and sensor readings are parameters.
 */
module Firmware {
  import opened Base
  import opened Clock
  import opened Events
  import Alert
  import Router
  import opened Session
  import Sensors
  import Telemetry
  import DeviceId

  /** `MQTT_DEBUG_INTERVAL`: the healthcheck period in milliseconds. */
  const MQTT_DEBUG_INTERVAL: Millis := 30000

  class Device {
    const otaTopic: string               // OTA_TOPIC
    const subTopic: string               // MQTT_TOPIC_SUB
    const pubTopic: string               // MQTT_TOPIC_PUB
    const mac: DeviceId.Mac              // what `WiFi.macAddress` reports
    const measureInterval: Millis        // MEASURE_INTERVAL * 1000
    const alertDuration: Millis          // ALERT_DURATION * 1000

    var alert: string
    var alertTime: Millis
    var measureTime: Millis
    var lastMQTTDebug: Millis
    var link: Link
    var trace: seq<Event>

    /** A halted device's last act was the deep sleep. */
    ghost predicate Valid()
      reads this
    {
      link == Asleep ==> |trace| > 0 && trace[|trace| - 1] == DeepSleep
    }

    /** The state at power-up: no alert, all timers at 0, not connected. */
    constructor (otaTopic: string, subTopic: string, pubTopic: string, mac: DeviceId.Mac,
                 measureIntervalSeconds: nat, alertDurationSeconds: nat)
      requires measureIntervalSeconds * 1000 < MODULUS && alertDurationSeconds * 1000 < MODULUS
      ensures Valid()
      ensures this.otaTopic == otaTopic && this.subTopic == subTopic && this.pubTopic == pubTopic
      ensures this.mac == mac
      ensures measureInterval == SecondsToMillis(measureIntervalSeconds)
      ensures alertDuration == SecondsToMillis(alertDurationSeconds)
      ensures alert == "" && alertTime == 0 && measureTime == 0 && lastMQTTDebug == 0
      ensures link == Down && trace == []
    {
      this.otaTopic, this.subTopic, this.pubTopic, this.mac := otaTopic, subTopic, pubTopic, mac;
      measureInterval := SecondsToMillis(measureIntervalSeconds);
      alertDuration := SecondsToMillis(alertDurationSeconds);
      alert, alertTime, measureTime, lastMQTTDebug := "", 0, 0, 0;
      link, trace := Down, [];
    }

    /**
     * `checkAlert()` at time `now`: the slot and the reply are those of `Alert.Query`.
     */
    method CheckAlert(now: Millis) returns (reply: string)
      modifies this`alert, this`alertTime
      ensures Alert.Answer(Alert.Slot(alert, alertTime), reply)
           == Alert.Query(Alert.Slot(old(alert), old(alertTime)), now, alertDuration)
    {
      if |alert| != 0 {
        if Since(now, alertTime) >= alertDuration {
          alert := "";
          alertTime := now;
        }
        reply := alert;
      } else {
        reply := Alert.OK_REPLY;
      }
    }

    /**
     * `receivedCallback(topic, payload, length)`: a message on the OTA topic goes to the
     * firmware updater and nothing else happens; on any other topic a payload containing
     * "ALERT" becomes the alert, whole, and the alert stamp is not touched.
     */
    method ReceivedCallback(topic: string, payload: array<Byte>, length: nat)
      requires Valid() && link != Asleep
      requires length <= payload.Length
      modifies this`alert, this`trace
      ensures Valid()
      ensures var data := Router.PayloadText(payload[..length]);
        && (topic == otaTopic ==> trace == old(trace) + [OtaUpdate(data)] && alert == old(alert))
        && (topic != otaTopic ==> trace == old(trace))
        && (topic != otaTopic && Router.Contains(data, Router.ALERT_MARKER) ==>
              Alert.Slot(alert, alertTime) == Alert.Raise(Alert.Slot(old(alert), alertTime), data))
        && (topic != otaTopic && !Router.Contains(data, Router.ALERT_MARKER) ==> alert == old(alert))
    {
      var data := Router.AssemblePayload(payload, length);
      assert data == Router.PayloadText(payload[..length]);
      if topic != otaTopic {
        Router.AlertRouting(topic, otaTopic, data);
      }
      match Router.Classify(topic, otaTopic, data) {
        case FirmwareUpdate(p) =>
          trace := trace + [OtaUpdate(p)];
        case RaiseAlert(message) =>
          alert := message;
        case Ignore =>
      }
    }

    /**
     * `measure(data)` at time `now`. A full sample happens exactly when more than the
     * measurement interval has passed since `measureTime`; it moves `measureTime` to `now`
     * and rewrites `*data` from the readings. Otherwise `*data` is not touched. The
     * heart-rate sensor's update step runs once either way.
     */
    method Measure(data: Sensors.SensorData, now: Millis, readings: Sensors.Readings) returns (sampled: bool)
      requires Valid() && link != Asleep
      modifies this`measureTime, this`trace, data
      ensures Valid()
      ensures sampled == IntervalPassed(now, old(measureTime), measureInterval)
      ensures measureTime == if sampled then now else old(measureTime)
      ensures trace == old(trace) + [PoxUpdate]
      ensures sampled ==> data.Snapshot() == Sensors.ApplyReadings(old(data.Snapshot()), readings)
      ensures !sampled ==> unchanged(data)
    {
      if Since(now, measureTime) > measureInterval {
        measureTime := now;
        if readings.shtOk {
          data.temperature := readings.temperature;
          data.humidity := readings.humidity;
        }
        trace := trace + [PoxUpdate];
        data.heartRate := readings.heartRate;
        data.spO2 := readings.spO2;
        data.accelX := readings.ax as real / Sensors.ACCEL_LSB_PER_G;
        data.accelY := readings.ay as real / Sensors.ACCEL_LSB_PER_G;
        data.accelZ := readings.az as real / Sensors.ACCEL_LSB_PER_G;
        data.gyroX := readings.gx as real / Sensors.GYRO_LSB_PER_DPS;
        data.gyroY := readings.gy as real / Sensors.GYRO_LSB_PER_DPS;
        data.gyroZ := readings.gz as real / Sensors.GYRO_LSB_PER_DPS;
        return true;
      }
      trace := trace + [PoxUpdate];
      return false;
    }

    /**
     * One pass of the `reconnect` loop with connection outcome `attempt`: a success brings
     * the link up, re-installs the callback, subscribes and drains; a failure sets the error
     * alert and either sleeps for good (unauthorized) or waits 5000 ms.
     */
    method ConnectOnce(attempt: Session.Attempt)
      requires Valid() && link == Down
      modifies this`link, this`alert, this`trace
      ensures Valid()
      ensures Session.Conn(link, alert, trace)
           == Session.Pass(Session.Conn(old(link), old(alert), old(trace)), attempt, subTopic)
    {
      ghost var before := trace;
      trace := trace + [Connect];
      match attempt {
        case Accepted =>
          link := Up;
          trace := trace + [SetCallback];
          trace := trace + [Subscribe(subTopic, Session.SUBSCRIBE_QOS)];
          trace := trace + [Loop, Delay(Session.DRAIN_DELAY_MS)];
          trace := trace + [SetupOta];
          trace := trace + [Loop, Delay(Session.DRAIN_DELAY_MS)];
        case Refused(code) =>
          alert := Session.ErrorMessage(code);
          if code == Session.MQTT_CONNECT_UNAUTHORIZED {
            trace := trace + [DeepSleep];
            link := Asleep;
          } else {
            trace := trace + [Delay(Session.RETRY_DELAY_MS)];
          }
      }
      assert trace == before + Session.AttemptEvents(attempt, subTopic);
    }

    /**
     * `reconnect()` over the connection outcomes `outcomes`, one per pass. Connected: nothing
     * happens. Otherwise the loop makes `Session.Passes(outcomes)` passes: it stops at the
     * first success (the link is up) or unauthorized failure (the device sleeps), and runs
     * out of outcomes, still down, only if every outcome is a retryable failure.
     */
    method Reconnect(outcomes: seq<Session.Attempt>) returns (used: nat)
      requires Valid() && link != Asleep
      modifies this`link, this`alert, this`trace
      ensures Valid()
      ensures used == if old(link) == Up then 0 else Session.Passes(outcomes)
      ensures old(link) == Up ==> link == Up && alert == old(alert)
      ensures old(link) == Down ==>
        var k := Session.FirstStop(outcomes);
        && link == (if k == |outcomes| then Down else if outcomes[k] == Session.Accepted then Up else Asleep)
        && alert == Session.AlertAfterLoop(old(alert), outcomes)
        && TotalDelay(trace) == TotalDelay(old(trace)) + Session.RETRY_DELAY_MS * k
           + (if k < |outcomes| && outcomes[k] == Session.Accepted then 2 * Session.DRAIN_DELAY_MS else 0)
      ensures trace == old(trace) + Session.RunEvents(outcomes[..used], subTopic)
      ensures Connects(trace) == Connects(old(trace)) + used
    {
      used := 0;
      if link == Up {
        return;
      }
      ghost var c0 := Session.Conn(link, alert, trace);
      while link == Down && used < |outcomes|
        invariant used <= Session.Passes(outcomes)
        invariant Session.Conn(link, alert, trace) == Session.PassAll(c0, outcomes[..used], subTopic)
        invariant Valid()
        decreases |outcomes| - used
      {
        ConnectOnce(outcomes[used]);
        Session.LoopStep(c0, outcomes, subTopic, used, Session.Conn(link, alert, trace));
        used := used + 1;
      }
      Session.LoopState(c0, outcomes, subTopic, used, Session.Conn(link, alert, trace));
    }

    /**
     * `checkMQTT()` at time `now`. Reconnects when the link is down (the outcomes must end
     * the loop: the firmware does not return from `reconnect` otherwise); a device that went
     * to sleep does nothing more. Then `client.loop()` runs, which may find the connection
     * lost (`linkLost`), and every `MQTT_DEBUG_INTERVAL` ms (strictly more) the healthcheck
     * reports whether the link is up and restarts its timer.
     */
    method CheckMQTT(outcomes: seq<Session.Attempt>, linkLost: bool, now: Millis) returns (used: nat)
      requires Valid() && link != Asleep
      requires link == Up || Session.FirstStop(outcomes) < |outcomes|
      modifies this`link, this`alert, this`trace, this`lastMQTTDebug
      ensures Valid()
      ensures used == if old(link) == Up then 0 else Session.Passes(outcomes)
      ensures alert == if old(link) == Up then old(alert) else Session.AlertAfterLoop(old(alert), outcomes)
      ensures var run := old(trace) + Session.RunEvents(outcomes[..used], subTopic);
        if old(link) == Down && outcomes[used - 1] != Session.Accepted then
          && link == Asleep && trace == run && lastMQTTDebug == old(lastMQTTDebug)
        else
          && link == (if linkLost then Down else Up)
          && var due := IntervalPassed(now, old(lastMQTTDebug), MQTT_DEBUG_INTERVAL);
          && lastMQTTDebug == (if due then now else old(lastMQTTDebug))
          && trace == run + [Loop] + (if due then [Healthcheck(!linkLost)] else [])
      ensures link == Asleep ==> |trace| > 0 && trace[|trace| - 1] == DeepSleep
    {
      if link != Up {
        used := Reconnect(outcomes);
      } else {
        used := 0;
      }
      if link == Asleep {
        return;
      }
      trace := trace + [Loop];
      if linkLost {
        link := Down;
      }
      if Since(now, lastMQTTDebug) > MQTT_DEBUG_INTERVAL {
        lastMQTTDebug := now;
        trace := trace + [Healthcheck(link == Up)];
      }
    }

    /**
     * `sendSensorData(data)` with the epoch time `epoch`: publishes the envelope of the
     * current record, the timestamp and the device identifier to the telemetry topic. The
     * publish result is only logged, so nothing else changes. The identifier is the full
     * one, `DeviceId.DeviceIdIntended`: `getMacAddress` as written cuts its last digit
     * (`DeviceId.GetMacAddress`).
     */
    method SendSensorData(data: Sensors.SensorData, epoch: int)
      requires Valid() && link != Asleep
      modifies this`trace
      ensures Valid()
      ensures trace == old(trace) +
        [Publish(pubTopic, Telemetry.Encode(data.Snapshot(), epoch, DeviceId.DeviceIdIntended(mac)))]
    {
      var envelope := Telemetry.Encode(data.Snapshot(), epoch, DeviceId.DeviceIdIntended(mac));
      trace := trace + [Publish(pubTopic, envelope)];
    }
  }
}
