/**
 * The telemetry envelope that `sendSensorData` publishes: the ten sensor fields, the epoch
 * timestamp and the device identifier, under fixed keys and in a fixed order. The JSON text
 * itself (ArduinoJson) is not modelled; the envelope is the ordered list of keyed values.
 */
module Telemetry {
  import opened Base
  import opened Sensors

  datatype Value = Number(x: real) | Integer(n: int) | Text(s: string)

  datatype Field = Field(key: string, value: Value)

  /** The keys of the envelope, in the order the document is built. */
  const ENVELOPE_KEYS: seq<string> := [
    "temperature", "humidity", "heartRate", "spO2",
    "accelX", "accelY", "accelZ", "gyroX", "gyroY", "gyroZ",
    "timestamp", "device_id"]

  /**
   * The envelope of one sample: the twelve keys in the order the document is built, the
   * timestamp and the identifier under the last two.
   */
  function Encode(s: Sample, timestamp: int, deviceId: string): (e: seq<Field>)
    ensures |e| == |ENVELOPE_KEYS| && forall i | 0 <= i < |e| :: e[i].key == ENVELOPE_KEYS[i]
    ensures e[10].value == Integer(timestamp) && e[11].value == Text(deviceId)
  {
    [ Field("temperature", Number(s.temperature)), Field("humidity", Number(s.humidity)),
      Field("heartRate", Number(s.heartRate)), Field("spO2", Number(s.spO2)),
      Field("accelX", Number(s.accelX)), Field("accelY", Number(s.accelY)),
      Field("accelZ", Number(s.accelZ)), Field("gyroX", Number(s.gyroX)),
      Field("gyroY", Number(s.gyroY)), Field("gyroZ", Number(s.gyroZ)),
      Field("timestamp", Integer(timestamp)), Field("device_id", Text(deviceId)) ]
  }

  /** The value stored under `key` (the first one, if the key were repeated). */
  function Lookup(e: seq<Field>, key: string): Option<Value>
  {
    if |e| == 0 then None else if e[0].key == key then Some(e[0].value) else Lookup(e[1..], key)
  }

  function NumberAt(e: seq<Field>, key: string): real
  {
    match Lookup(e, key)
    case Some(Number(x)) => x
    case _ => 0.0
  }

  /** The envelope is well-formed when every key holds a value of the expected kind. */
  predicate WellFormed(e: seq<Field>)
  {
    && (forall k | k in ENVELOPE_KEYS[..10] :: Lookup(e, k).Some? && Lookup(e, k).value.Number?)
    && Lookup(e, "timestamp").Some? && Lookup(e, "timestamp").value.Integer?
    && Lookup(e, "device_id").Some? && Lookup(e, "device_id").value.Text?
  }

  /** Reads a sample, timestamp and device identifier back out of an envelope. */
  function Decode(e: seq<Field>): Option<(Sample, int, string)>
  {
    if WellFormed(e) then
      Some((Sample(
        NumberAt(e, "temperature"), NumberAt(e, "humidity"),
        NumberAt(e, "heartRate"), NumberAt(e, "spO2"),
        NumberAt(e, "accelX"), NumberAt(e, "accelY"), NumberAt(e, "accelZ"),
        NumberAt(e, "gyroX"), NumberAt(e, "gyroY"), NumberAt(e, "gyroZ")),
        Lookup(e, "timestamp").value.n, Lookup(e, "device_id").value.s))
    else None
  }

  /** Length, first and last character: enough to tell the envelope keys apart. */
  function KeyTag(k: string): (int, char, char)
  {
    if |k| == 0 then (0, ' ', ' ') else (|k|, k[0], k[|k| - 1])
  }

  /** No key occurs twice in the envelope. */
  lemma EnvelopeKeysDistinct()
    ensures forall i, j | 0 <= i < j < |ENVELOPE_KEYS| :: ENVELOPE_KEYS[i] != ENVELOPE_KEYS[j]
  {
    var tags := [(11, 't', 'e'), (8, 'h', 'y'), (9, 'h', 'e'), (4, 's', '2'),
                 (6, 'a', 'X'), (6, 'a', 'Y'), (6, 'a', 'Z'), (5, 'g', 'X'), (5, 'g', 'Y'), (5, 'g', 'Z'),
                 (9, 't', 'p'), (9, 'd', 'd')];
    forall i | 0 <= i < |ENVELOPE_KEYS| ensures KeyTag(ENVELOPE_KEYS[i]) == tags[i] {
    }
  }

  /** In an envelope whose keys are pairwise distinct, looking up a field's key finds that field. */
  lemma {:induction false} LookupDistinct(e: seq<Field>, i: nat)
    requires i < |e|
    requires forall j, k | 0 <= j < k < |e| :: e[j].key != e[k].key
    ensures Lookup(e, e[i].key) == Some(e[i].value)
  {
    if i > 0 {
      assert e[0].key != e[i].key;
      LookupDistinct(e[1..], i - 1);
    }
  }

  /** Decoding an envelope gives back the sample, timestamp and identifier it was built from. */
  lemma DecodeEncode(s: Sample, timestamp: int, deviceId: string)
    ensures Decode(Encode(s, timestamp, deviceId)) == Some((s, timestamp, deviceId))
  {
    var e := Encode(s, timestamp, deviceId);
    EnvelopeKeysDistinct();
    forall i | 0 <= i < |e| ensures Lookup(e, ENVELOPE_KEYS[i]) == Some(e[i].value) {
      LookupDistinct(e, i);
    }
    assert Lookup(e, "temperature") == Some(Number(s.temperature)) by { assert ENVELOPE_KEYS[0] == "temperature"; }
    assert Lookup(e, "humidity") == Some(Number(s.humidity)) by { assert ENVELOPE_KEYS[1] == "humidity"; }
    assert Lookup(e, "heartRate") == Some(Number(s.heartRate)) by { assert ENVELOPE_KEYS[2] == "heartRate"; }
    assert Lookup(e, "spO2") == Some(Number(s.spO2)) by { assert ENVELOPE_KEYS[3] == "spO2"; }
    assert Lookup(e, "accelX") == Some(Number(s.accelX)) by { assert ENVELOPE_KEYS[4] == "accelX"; }
    assert Lookup(e, "accelY") == Some(Number(s.accelY)) by { assert ENVELOPE_KEYS[5] == "accelY"; }
    assert Lookup(e, "accelZ") == Some(Number(s.accelZ)) by { assert ENVELOPE_KEYS[6] == "accelZ"; }
    assert Lookup(e, "gyroX") == Some(Number(s.gyroX)) by { assert ENVELOPE_KEYS[7] == "gyroX"; }
    assert Lookup(e, "gyroY") == Some(Number(s.gyroY)) by { assert ENVELOPE_KEYS[8] == "gyroY"; }
    assert Lookup(e, "gyroZ") == Some(Number(s.gyroZ)) by { assert ENVELOPE_KEYS[9] == "gyroZ"; }
    assert Lookup(e, "timestamp") == Some(Integer(timestamp)) by { assert ENVELOPE_KEYS[10] == "timestamp"; }
    assert Lookup(e, "device_id") == Some(Text(deviceId)) by { assert ENVELOPE_KEYS[11] == "device_id"; }
    assert WellFormed(e);
  }
}
