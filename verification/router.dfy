/**
 * Inbound message routing (`receivedCallback`). The payload arrives as `length` raw bytes
 * that are not NUL-terminated; it is rebuilt into text one byte at a time. The topic is then
 * compared with the OTA topic first; only a message on another topic is searched for the
 * case-sensitive marker "ALERT".
 */
module Router {
  import opened Base

  /** The substring that marks an alert payload. */
  const ALERT_MARKER: string := "ALERT"

  /** Where a message goes; the first matching rule wins. */
  datatype Route =
    | FirmwareUpdate(payload: string)   // handed to `checkOTAUpdate`
    | RaiseAlert(message: string)       // replaces the global `alert`
    | Ignore                            // logged only

  /** `(char)payload[i]` for every byte, in order. */
  function PayloadText(bytes: seq<Byte>): (text: string)
    ensures |text| == |bytes| && forall i | 0 <= i < |bytes| :: text[i] as int == bytes[i]
  {
    seq(|bytes|, i requires 0 <= i < |bytes| => bytes[i] as char)
  }

  predicate OccursAt(s: string, pat: string, i: int)
  {
    0 <= i && i + |pat| <= |s| && s[i..i + |pat|] == pat
  }

  predicate Contains(s: string, pat: string)
  {
    exists i | 0 <= i < |s| :: OccursAt(s, pat, i)
  }

  /**
   * `String::indexOf(pat, from)`: the first occurrence at or after `from`, or -1. Like
   * Arduino's, it finds nothing at or past the end of `s`, even for an empty `pat`.
   */
  function IndexOfFrom(s: string, pat: string, from: nat): (r: int)
    ensures r == -1 || (from <= r && OccursAt(s, pat, r))
    ensures r >= 0 ==> forall i | from <= i < r :: !OccursAt(s, pat, i)
    ensures r == -1 <==> forall i | from <= i < |s| :: !OccursAt(s, pat, i)
    decreases |s| - from
  {
    if from >= |s| || from + |pat| > |s| then -1
    else if s[from..from + |pat|] == pat then from
    else IndexOfFrom(s, pat, from + 1)
  }

  /** `String::indexOf(pat)`. */
  function IndexOf(s: string, pat: string): (r: int)
    ensures r >= 0 <==> Contains(s, pat)
    ensures r >= 0 ==> OccursAt(s, pat, r) && forall i | 0 <= i < r :: !OccursAt(s, pat, i)
  {
    IndexOfFrom(s, pat, 0)
  }

  /** The routing decision of `receivedCallback`, on the topic and the rebuilt payload. */
  function Classify(topic: string, otaTopic: string, data: string): (r: Route)
    ensures r.FirmwareUpdate? <==> topic == otaTopic
    ensures r.FirmwareUpdate? ==> r.payload == data
    ensures r.RaiseAlert? ==> r.message == data
  {
    if topic == otaTopic then FirmwareUpdate(data)
    else if IndexOf(data, ALERT_MARKER) >= 0 then RaiseAlert(data)
    else Ignore
  }

  /**
   * Rebuilds the payload text from the first `length` bytes of `payload`, one character per
   * byte and in order, as the `data += (char)payload[i]` loop does.
   */
  method AssemblePayload(payload: array<Byte>, length: nat) returns (data: string)
    requires length <= payload.Length
    ensures |data| == length
    ensures forall i | 0 <= i < length :: data[i] as int == payload[i]
  {
    data := "";
    var i := 0;
    while i < length
      invariant 0 <= i <= length
      invariant |data| == i
      invariant forall k | 0 <= k < i :: data[k] as int == payload[k]
    {
      data := data + [payload[i] as char];
      i := i + 1;
    }
  }

  /** A message on the OTA topic always goes to the firmware updater, whatever its payload says. */
  lemma OtaTopicWins(otaTopic: string, data: string)
    ensures Classify(otaTopic, otaTopic, data) == FirmwareUpdate(data)
    ensures Contains(data, ALERT_MARKER) ==> !Classify(otaTopic, otaTopic, data).RaiseAlert?
  {
  }

  /**
   * On any other topic the whole payload becomes the alert exactly when it contains "ALERT",
   * and the message is ignored exactly when it does not.
   */
  lemma AlertRouting(topic: string, otaTopic: string, data: string)
    requires topic != otaTopic
    ensures Classify(topic, otaTopic, data) == RaiseAlert(data) <==> Contains(data, ALERT_MARKER)
    ensures Classify(topic, otaTopic, data) == Ignore <==> !Contains(data, ALERT_MARKER)
    ensures !Classify(topic, otaTopic, data).FirmwareUpdate?
  {
  }

  /** The marker test is case-sensitive: a lower-case "alert" is ignored. */
  lemma MarkerIsCaseSensitive(topic: string, otaTopic: string)
    requires topic != otaTopic
    ensures Classify(topic, otaTopic, "alert") == Ignore
    ensures Classify(topic, otaTopic, "ALERT") == RaiseAlert("ALERT")
  {
    assert "alert"[0..5][0] != ALERT_MARKER[0];
    assert OccursAt("ALERT", ALERT_MARKER, 0);
  }
}
