/**
 * The one-slot alert: the globals `alert` (message) and `alertTime` (a `millis()` stamp).
 *
 * As written, raising an alert (`alert = data` in `receivedCallback`, `alert = "MQTT error: "
 * + ...` in `reconnect`) replaces the message and leaves the stamp alone; `checkAlert`
 * answers "OK" for an empty slot, the message while `now - alertTime < ALERT_DURATION*1000`,
 * and otherwise clears the slot, stamps it with the current time and answers the now-empty
 * message. The stamp is therefore the time of the previous clear, not of the raise.
 *
 * `RaiseIntended` and `QueryIntended` give the behaviour the comments describe ("it also
 * records the time at which the alert fires"): the raise stamps the slot, and an expired
 * alert answers "OK".
 */
module Alert {
  import opened Clock

  const OK_REPLY: string := "OK"

  /** The globals `alert` and `alertTime`. */
  datatype Slot = Slot(message: string, stamp: Millis)

  /** The slot after a query, and the text `checkAlert` returns. */
  datatype Answer = Answer(slot: Slot, reply: string)

  /** `alert = message`, as both writers do it: the stamp is not touched. */
  function Raise(s: Slot, message: string): (r: Slot)
    ensures r.message == message && r.stamp == s.stamp
  {
    s.(message := message)
  }

  /** `checkAlert()` as written, with one reading `now` of `millis()`. */
  function Query(s: Slot, now: Millis, duration: Millis): (r: Answer)
    ensures r.slot == s || r.slot == Slot("", now)
    ensures s.message != "" ==> r.reply == r.slot.message
    ensures s.message == "" ==> r.reply == OK_REPLY
  {
    if |s.message| != 0 then
      if Expired(now, s.stamp, duration) then Answer(Slot("", now), "")
      else Answer(s, s.message)
    else Answer(s, OK_REPLY)
  }

  /**
   * The three behaviours of `checkAlert`: an empty slot answers "OK" and changes nothing; a
   * live alert is answered and kept; an expired one is cleared, stamped with `now`, and the
   * call answers the empty string.
   */
  lemma QueryCases(s: Slot, now: Millis, duration: Millis)
    ensures s.message == "" ==> Query(s, now, duration) == Answer(s, OK_REPLY)
    ensures s.message != "" && Since(now, s.stamp) < duration ==>
      Query(s, now, duration) == Answer(s, s.message)
    ensures s.message != "" && Since(now, s.stamp) >= duration ==>
      Query(s, now, duration) == Answer(Slot("", now), "")
  {
  }

  /**
   * Asking twice at the same time: a live alert is answered twice; an expired one is
   * answered "" and then "OK", and the slot no longer holds it.
   */
  lemma QueryTwice(s: Slot, now: Millis, duration: Millis)
    ensures var first := Query(s, now, duration);
      var second := Query(first.slot, now, duration);
      && (s.message != "" && !Expired(now, s.stamp, duration) ==> second.reply == s.message)
      && (first.reply != s.message || s.message == "" ==> second.reply == OK_REPLY)
      && second.slot == first.slot
  {
  }

  /** Once expired, an alert is gone: every later query answers "OK" until the next raise. */
  lemma ClearedStaysOk(s: Slot, now: Millis, later: Millis, duration: Millis)
    requires s.message != "" && Expired(now, s.stamp, duration)
    ensures Query(Query(s, now, duration).slot, later, duration).reply == OK_REPLY
  {
  }

  /**
   * A raise does not restart the timer: an alert raised when the stamp is already
   * `duration` old is cleared by the very next query and never shown.
   */
  lemma LateRaiseNeverShown(s: Slot, message: string, now: Millis, duration: Millis)
    requires message != "" && Expired(now, s.stamp, duration)
    ensures Query(Raise(s, message), now, duration) == Answer(Slot("", now), "")
  {
  }

  /**
   * With the stamp still at its initial 0, an alert raised at 60 s with a 10 s duration
   * is answered with "" by a query 1 ms later.
   */
  lemma LateRaiseExample()
    ensures Query(Raise(Slot("", 0), "ALERT: high temperature"), 60001, 10000).reply == ""
  {
    LateRaiseNeverShown(Slot("", 0), "ALERT: high temperature", 60001, 10000);
  }

  /** The intended raise: the new message and the time it was raised. */
  function RaiseIntended(s: Slot, message: string, now: Millis): (r: Slot)
  {
    Slot(message, now)
  }

  /** The intended query: the live message, otherwise "OK"; an expired message is dropped. */
  function QueryIntended(s: Slot, now: Millis, duration: Millis): Answer
  {
    if s.message != "" && !Expired(now, s.stamp, duration) then Answer(s, s.message)
    else Answer(Slot("", s.stamp), OK_REPLY)
  }

  /**
   * Alert expiry: after raising `message` at `t0`, a query at `t` answers the message
   * exactly while fewer than `duration` ms have passed since `t0`, and "OK" from then on.
   */
  lemma IntendedExpiry(s: Slot, message: string, t0: Millis, t: Millis, duration: Millis)
    requires message != ""
    ensures QueryIntended(RaiseIntended(s, message, t0), t, duration).reply
         == if Since(t, t0) < duration then message else OK_REPLY
  {
  }

  /** Alert overwrite: after raising `a` then `b`, queries answer `b` (never `a`) on `b`'s timer. */
  lemma IntendedOverwrite(s: Slot, a: string, b: string, t0: Millis, t1: Millis, t: Millis, duration: Millis)
    requires b != ""
    ensures QueryIntended(RaiseIntended(RaiseIntended(s, a, t0), b, t1), t, duration).reply
         == if Since(t, t1) < duration then b else OK_REPLY
  {
  }

  /** The intended query never answers the empty string, and an expired alert is not recoverable. */
  lemma IntendedQueryReplies(s: Slot, now: Millis, later: Millis, duration: Millis)
    ensures QueryIntended(s, now, duration).reply != ""
    ensures QueryIntended(s, now, duration).reply != s.message ==>
      QueryIntended(QueryIntended(s, now, duration).slot, later, duration).reply == OK_REPLY
  {
  }
}
