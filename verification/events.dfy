/**
 * The externally visible effects of the core, recorded in order: calls into the MQTT client
 * and the OTA library, delays, the deep-sleep halt, the heart-rate sensor's update step and
 * published telemetry. A virtual `delay(ms)` is a `Delay(ms)` event; real time is not modelled.
 */
module Events {
  import Telemetry

  datatype Event =
    | Connect                                  // `client.connect(client_id, user, password)`
    | SetCallback                              // `client.setCallback(receivedCallback)`
    | Subscribe(topic: string, qos: nat)       // `client.subscribe(topic, qos)`
    | Loop                                     // `client.loop()`
    | Delay(ms: nat)                           // `delay(ms)`
    | SetupOta                                 // `setupOTA(client)`
    | DeepSleep                                // `ESP.deepSleep(0)`: the device halts
    | OtaUpdate(payload: string)               // `checkOTAUpdate(payload)`
    | PoxUpdate                                // `pox.update()`
    | Healthcheck(up: bool)                    // the 30 s healthcheck report
    | Publish(topic: string, envelope: seq<Telemetry.Field>)  // `client.publish(topic, json)`

  /** The total time spent in `delay` over a trace. */
  function TotalDelay(t: seq<Event>): nat
  {
    if |t| == 0 then 0
    else TotalDelay(t[..|t| - 1]) + (if t[|t| - 1].Delay? then t[|t| - 1].ms else 0)
  }

  /** The number of connection attempts in a trace. */
  function Connects(t: seq<Event>): nat
  {
    if |t| == 0 then 0
    else Connects(t[..|t| - 1]) + (if t[|t| - 1].Connect? then 1 else 0)
  }

  /** Delays and connection attempts add up over concatenated traces. */
  lemma {:induction false} AppendCounts(a: seq<Event>, b: seq<Event>)
    ensures TotalDelay(a + b) == TotalDelay(a) + TotalDelay(b)
    ensures Connects(a + b) == Connects(a) + Connects(b)
    decreases |b|
  {
    if |b| > 0 {
      var b' := b[..|b| - 1];
      assert (a + b)[..|a + b| - 1] == a + b';
      AppendCounts(a, b');
    } else {
      assert a + b == a;
    }
  }
}
