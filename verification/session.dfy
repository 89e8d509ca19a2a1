/**
 * The MQTT reconnect loop of `reconnect`, as a specification over a finite sequence of
 * connection-attempt outcomes (the results of `client.connect` and `client.state()`).
 *
 * Each attempt records `Connect`. A success then re-installs the message callback,
 * subscribes to the command topic at QoS 1, and runs two `client.loop()` + 100 ms drain
 * passes with `setupOTA` between them; the loop ends. A failure sets the alert to
 * "MQTT error: <code>"; the code `MQTT_CONNECT_UNAUTHORIZED` halts the device in deep sleep,
 * any other code waits 5000 ms before the next attempt.
 */
module Session {
  import opened Base
  import opened Events
  import Decimal

  /** PubSubClient's state code for rejected credentials. */
  const MQTT_CONNECT_UNAUTHORIZED: int := 5

  /** The pause after a failed attempt, in milliseconds. */
  const RETRY_DELAY_MS: nat := 5000

  /** The pause after each of the two post-connect `client.loop()` passes. */
  const DRAIN_DELAY_MS: nat := 100

  /** The QoS level of the command-topic subscription (at least once). */
  const SUBSCRIBE_QOS: nat := 1

  const ERROR_PREFIX: string := "MQTT error: "

  /** The outcome of one `client.connect`: success, or failure with `client.state()`. */
  datatype Attempt = Accepted | Refused(code: int)

  /** A failure after which the loop waits and tries again. */
  predicate Retryable(a: Attempt)
  {
    a.Refused? && a.code != MQTT_CONNECT_UNAUTHORIZED
  }

  /** `"MQTT error: " + String(state)`. */
  function ErrorMessage(code: int): string
  {
    ERROR_PREFIX + Decimal.IntToString(code)
  }

  /** Reads the state code back out of an error alert. */
  function ParseErrorMessage(s: string): Option<int>
  {
    if |ERROR_PREFIX| <= |s| && s[..|ERROR_PREFIX|] == ERROR_PREFIX
    then Decimal.ParseInt(s[|ERROR_PREFIX|..])
    else None
  }

  /** The events of one pass through the loop body. */
  function AttemptEvents(a: Attempt, subTopic: string): (t: seq<Event>)
    ensures |t| > 1 && t[0] == Connect
    ensures forall i | 1 <= i < |t| :: !t[i].Connect?
    ensures t[|t| - 1] == DeepSleep <==> a == Refused(MQTT_CONNECT_UNAUTHORIZED)
  {
    match a
    case Accepted =>
      [Connect, SetCallback, Subscribe(subTopic, SUBSCRIBE_QOS),
       Loop, Delay(DRAIN_DELAY_MS), SetupOta, Loop, Delay(DRAIN_DELAY_MS)]
    case Refused(code) =>
      if code == MQTT_CONNECT_UNAUTHORIZED then [Connect, DeepSleep]
      else [Connect, Delay(RETRY_DELAY_MS)]
  }

  /** The events of the passes with outcomes `outcomes`, in order. */
  function RunEvents(outcomes: seq<Attempt>, subTopic: string): seq<Event>
  {
    if |outcomes| == 0 then []
    else RunEvents(outcomes[..|outcomes| - 1], subTopic) + AttemptEvents(outcomes[|outcomes| - 1], subTopic)
  }

  /**
   * The index of the pass that ends the loop (the first success or unauthorized failure),
   * or `|outcomes|` when every outcome is a retryable failure.
   */
  function FirstStop(outcomes: seq<Attempt>): (k: nat)
    ensures k <= |outcomes|
    ensures forall j | 0 <= j < k :: Retryable(outcomes[j])
    ensures k < |outcomes| ==> !Retryable(outcomes[k])
  {
    if |outcomes| == 0 || !Retryable(outcomes[0]) then 0 else 1 + FirstStop(outcomes[1..])
  }

  /** The number of passes the loop makes: up to and including the one that ends it. */
  function Passes(outcomes: seq<Attempt>): (n: nat)
    ensures n <= |outcomes|
    ensures n == FirstStop(outcomes) || n == FirstStop(outcomes) + 1
    ensures FirstStop(outcomes) < |outcomes| ==> n == FirstStop(outcomes) + 1
  {
    if FirstStop(outcomes) < |outcomes| then FirstStop(outcomes) + 1 else |outcomes|
  }

  /**
   * The global `alert` after the loop: the error message of the last failed pass (the
   * final one, or else the one before it), or the old alert if no pass failed.
   */
  function AlertAfterLoop(alert: string, outcomes: seq<Attempt>): (r: string)
    ensures FirstStop(outcomes) == 0 && (|outcomes| == 0 || outcomes[0] == Accepted) ==> r == alert
    ensures r != alert ==> FirstStop(outcomes) > 0 || outcomes[FirstStop(outcomes)].Refused?
  {
    var k := FirstStop(outcomes);
    if k < |outcomes| && outcomes[k].Refused? then ErrorMessage(outcomes[k].code)
    else if k > 0 then ErrorMessage(outcomes[k - 1].code)
    else alert
  }

  /** The MQTT session as the core sees it; `Asleep` is the terminal `ESP.deepSleep(0)`. */
  datatype Link = Down | Up | Asleep

  /** What the loop body changes: the session, the global `alert` and the events so far. */
  datatype Conn = Conn(link: Link, alert: string, events: seq<Event>)

  /** The session after a pass with outcome `a`. */
  function LinkAfter(a: Attempt): Link
  {
    if a == Accepted then Up else if Retryable(a) then Down else Asleep
  }

  /** One pass of the loop body with outcome `a`. */
  function Pass(c: Conn, a: Attempt, subTopic: string): (r: Conn)
    ensures r.link == Down <==> Retryable(a)
    ensures r.link == Up <==> a == Accepted
    ensures a == Accepted ==> r.alert == c.alert
    ensures |r.events| == |c.events| + |AttemptEvents(a, subTopic)|
  {
    Conn(LinkAfter(a),
         if a.Refused? then ErrorMessage(a.code) else c.alert,
         c.events + AttemptEvents(a, subTopic))
  }

  /** The passes with outcomes `outcomes`, in order, starting from `c`. */
  function PassAll(c: Conn, outcomes: seq<Attempt>, subTopic: string): (r: Conn)
    ensures |r.events| >= |c.events| + 2 * |outcomes|
  {
    if |outcomes| == 0 then c
    else Pass(PassAll(c, outcomes[..|outcomes| - 1], subTopic), outcomes[|outcomes| - 1], subTopic)
  }

  /** The error alert names the failing code: it reads back to exactly that code. */
  lemma ErrorMessageInverse(code: int)
    ensures ParseErrorMessage(ErrorMessage(code)) == Some(code)
  {
    var s := ErrorMessage(code);
    assert s[..|ERROR_PREFIX|] == ERROR_PREFIX;
    assert s[|ERROR_PREFIX|..] == Decimal.IntToString(code);
    Decimal.IntToStringInverse(code);
  }

  /** One more pass: its events follow the earlier ones. */
  lemma RunStep(done: seq<Attempt>, a: Attempt, subTopic: string)
    ensures RunEvents(done + [a], subTopic) == RunEvents(done, subTopic) + AttemptEvents(a, subTopic)
  {
    assert (done + [a])[..|done|] == done;
  }

  /** One more pass, with the next outcome. */
  lemma PassAllStep(c: Conn, outcomes: seq<Attempt>, i: nat, subTopic: string)
    requires i < |outcomes|
    ensures PassAll(c, outcomes[..i + 1], subTopic) == Pass(PassAll(c, outcomes[..i], subTopic), outcomes[i], subTopic)
  {
    assert outcomes[..i + 1][..i] == outcomes[..i];
  }

  /** The passes append exactly the events of the run. */
  lemma {:induction false} PassAllEvents(c: Conn, outcomes: seq<Attempt>, subTopic: string)
    ensures PassAll(c, outcomes, subTopic).events == c.events + RunEvents(outcomes, subTopic)
  {
    if |outcomes| > 0 {
      PassAllEvents(c, outcomes[..|outcomes| - 1], subTopic);
    }
  }

  /**
   * From a down link, the session stays down through the retryable failures, and the pass
   * that ends the loop leaves it up (success) or asleep (unauthorized).
   */
  lemma {:induction false} PassAllLink(c: Conn, outcomes: seq<Attempt>, subTopic: string, n: nat)
    requires c.link == Down && n <= Passes(outcomes)
    ensures var k := FirstStop(outcomes);
      PassAll(c, outcomes[..n], subTopic).link
        == if n <= k then Down else if outcomes[k] == Accepted then Up else Asleep
  {
    if n > 0 {
      LastLink(c, outcomes[..n], subTopic);
      assert outcomes[..n][n - 1] == outcomes[n - 1];
      LinkAfterPass(outcomes, n);
    }
  }

  /**
   * One more pass of the loop from a down link: the state `r` it leaves is the fold one
   * outcome further, and the loop has not yet gone past `Passes(outcomes)`.
   */
  lemma LoopStep(c: Conn, outcomes: seq<Attempt>, subTopic: string, used: nat, r: Conn)
    requires c.link == Down && used <= Passes(outcomes) && used < |outcomes|
    requires PassAll(c, outcomes[..used], subTopic).link == Down
    requires r == Pass(PassAll(c, outcomes[..used], subTopic), outcomes[used], subTopic)
    ensures r == PassAll(c, outcomes[..used + 1], subTopic) && used + 1 <= Passes(outcomes)
  {
    PassAllLink(c, outcomes, subTopic, used);
    PassAllStep(c, outcomes, used, subTopic);
  }

  /**
   * The state the loop leaves behind, from the state `r` it stops in: it stops after exactly
   * `Passes(outcomes)` passes, and `r` is the closed form of `LoopOutcome` and `LoopTotals`.
   */
  lemma LoopState(c: Conn, outcomes: seq<Attempt>, subTopic: string, used: nat, r: Conn)
    requires c.link == Down && used <= Passes(outcomes)
    requires r == PassAll(c, outcomes[..used], subTopic)
    requires used == |outcomes| || r.link != Down
    ensures used == Passes(outcomes)
    ensures var k := FirstStop(outcomes);
      && r.link == (if k == |outcomes| then Down else if outcomes[k] == Accepted then Up else Asleep)
      && r.alert == AlertAfterLoop(c.alert, outcomes)
      && TotalDelay(r.events) == TotalDelay(c.events) + RETRY_DELAY_MS * k
           + (if k < |outcomes| && outcomes[k] == Accepted then 2 * DRAIN_DELAY_MS else 0)
      && r.events == c.events + RunEvents(outcomes[..used], subTopic)
      && Connects(r.events) == Connects(c.events) + used
  {
    PassAllLink(c, outcomes, subTopic, used);
    LoopOutcome(c, outcomes, subTopic);
    LoopTotals(c, outcomes, subTopic);
  }

  /** The link after pass `n` of the loop: down before the stopping pass, then its outcome. */
  lemma LinkAfterPass(outcomes: seq<Attempt>, n: nat)
    requires 0 < n <= Passes(outcomes)
    ensures var k := FirstStop(outcomes);
      LinkAfter(outcomes[n - 1]) == if n <= k then Down else if outcomes[k] == Accepted then Up else Asleep
  {
    if n - 1 < FirstStop(outcomes) {
      assert Retryable(outcomes[n - 1]);
    }
  }

  /** The link after a run of passes depends on the last pass's outcome alone. */
  lemma LastLink(c: Conn, done: seq<Attempt>, subTopic: string)
    requires |done| > 0
    ensures PassAll(c, done, subTopic).link == LinkAfter(done[|done| - 1])
  {
  }

  /**
   * The alert after `n` passes of the loop: the error of the last pass if it failed, else
   * the error of the failure before it, else the alert the loop started with.
   */
  lemma {:induction false} PassAllAlert(c: Conn, outcomes: seq<Attempt>, subTopic: string, n: nat)
    requires n <= Passes(outcomes)
    ensures var alert := PassAll(c, outcomes[..n], subTopic).alert;
      && (n == 0 ==> alert == c.alert)
      && (n > 0 && outcomes[n - 1].Refused? ==> alert == ErrorMessage(outcomes[n - 1].code))
      && (n > 0 && outcomes[n - 1] == Accepted ==>
            alert == if n > 1 then ErrorMessage(outcomes[n - 2].code) else c.alert)
  {
    if n > 0 {
      assert outcomes[..n][..n - 1] == outcomes[..n - 1];
      PassAllAlert(c, outcomes, subTopic, n - 1);
    }
  }

  /**
   * The whole loop from a down link: it ends after `Passes(outcomes)` passes with the
   * session, alert and events its closed forms give.
   */
  lemma {:induction false} LoopOutcome(c: Conn, outcomes: seq<Attempt>, subTopic: string)
    requires c.link == Down
    ensures var k, n := FirstStop(outcomes), Passes(outcomes);
      PassAll(c, outcomes[..n], subTopic)
        == Conn(if k == |outcomes| then Down else if outcomes[k] == Accepted then Up else Asleep,
                AlertAfterLoop(c.alert, outcomes),
                c.events + RunEvents(outcomes[..n], subTopic))
  {
    var n := Passes(outcomes);
    PassAllLink(c, outcomes, subTopic, n);
    LoopAlert(c, outcomes, subTopic);
    PassAllEvents(c, outcomes[..n], subTopic);
  }

  /** The alert the loop leaves behind is the one `AlertAfterLoop` names. */
  lemma LoopAlert(c: Conn, outcomes: seq<Attempt>, subTopic: string)
    ensures PassAll(c, outcomes[..Passes(outcomes)], subTopic).alert == AlertAfterLoop(c.alert, outcomes)
  {
    PassAllAlert(c, outcomes, subTopic, Passes(outcomes));
    AlertAfterPasses(c.alert, outcomes);
  }

  /** `AlertAfterLoop` in terms of the last one or two passes the loop makes. */
  lemma AlertAfterPasses(alert: string, outcomes: seq<Attempt>)
    ensures var n := Passes(outcomes);
      AlertAfterLoop(alert, outcomes)
        == if n == 0 then alert
           else if outcomes[n - 1].Refused? then ErrorMessage(outcomes[n - 1].code)
           else if n > 1 then ErrorMessage(outcomes[n - 2].code)
           else alert
  {
    var k, n := FirstStop(outcomes), Passes(outcomes);
    if k < |outcomes| {
      assert n == k + 1 && outcomes[n - 1] == outcomes[k];
    } else if k > 0 {
      assert n == k && outcomes[n - 1].Refused?;
    }
  }

  /** The events of consecutive runs concatenate. */
  lemma {:induction false} RunEventsAppend(a: seq<Attempt>, b: seq<Attempt>, subTopic: string)
    ensures RunEvents(a + b, subTopic) == RunEvents(a, subTopic) + RunEvents(b, subTopic)
    decreases |b|
  {
    if |b| == 0 {
      assert a + b == a;
    } else {
      var b', x := b[..|b| - 1], b[|b| - 1];
      var ra, rb', rx := RunEvents(a, subTopic), RunEvents(b', subTopic), AttemptEvents(x, subTopic);
      calc {
        RunEvents(a + b, subTopic);
        { assert a + b == (a + b') + [x]; RunStep(a + b', x, subTopic); }
        RunEvents(a + b', subTopic) + rx;
        { RunEventsAppend(a, b', subTopic); }
        (ra + rb') + rx;
        ra + (rb' + rx);
        { assert b == b' + [x]; RunStep(b', x, subTopic); }
        ra + RunEvents(b, subTopic);
      }
    }
  }

  /** Every pass makes exactly one connection attempt. */
  lemma {:induction false} OneConnectPerPass(outcomes: seq<Attempt>, subTopic: string)
    ensures Connects(RunEvents(outcomes, subTopic)) == |outcomes|
  {
    if |outcomes| > 0 {
      var init := outcomes[..|outcomes| - 1];
      OneConnectPerPass(init, subTopic);
      var last := AttemptEvents(outcomes[|outcomes| - 1], subTopic);
      AppendCounts(RunEvents(init, subTopic), last);
      ConnectsLeading(last);
    }
  }

  /** A trace that starts with its only `Connect` counts one attempt. */
  lemma {:induction false} ConnectsLeading(t: seq<Event>)
    requires |t| > 0 && t[0] == Connect
    requires forall i | 1 <= i < |t| :: !t[i].Connect?
    ensures Connects(t) == 1
    decreases |t|
  {
    if |t| > 1 {
      ConnectsLeading(t[..|t| - 1]);
    } else {
      assert t[..0] == [];
    }
  }

  /** The delay a single event adds. */
  lemma DelayOfOne(e: Event)
    ensures TotalDelay([e]) == if e.Delay? then e.ms else 0
  {
    assert [e][..0] == [];
  }

  /**
   * The delay of one pass: 2 x 100 ms of draining after a success, 5000 ms after a
   * retryable failure, none before the deep sleep.
   */
  lemma PassDelay(a: Attempt, subTopic: string)
    ensures TotalDelay(AttemptEvents(a, subTopic))
         == if a == Accepted then 2 * DRAIN_DELAY_MS else if Retryable(a) then RETRY_DELAY_MS else 0
  {
    var ev := AttemptEvents(a, subTopic);
    forall i | 0 <= i < |ev| ensures TotalDelay([ev[i]]) == if ev[i].Delay? then ev[i].ms else 0 {
      DelayOfOne(ev[i]);
    }
    if a == Accepted {
      assert ev == [ev[0]] + [ev[1]] + [ev[2]] + [ev[3]] + [ev[4]] + [ev[5]] + [ev[6]] + [ev[7]];
      AppendCounts([ev[0]], [ev[1]]);
      AppendCounts([ev[0]] + [ev[1]], [ev[2]]);
      AppendCounts([ev[0]] + [ev[1]] + [ev[2]], [ev[3]]);
      AppendCounts([ev[0]] + [ev[1]] + [ev[2]] + [ev[3]], [ev[4]]);
      AppendCounts([ev[0]] + [ev[1]] + [ev[2]] + [ev[3]] + [ev[4]], [ev[5]]);
      AppendCounts([ev[0]] + [ev[1]] + [ev[2]] + [ev[3]] + [ev[4]] + [ev[5]], [ev[6]]);
      AppendCounts([ev[0]] + [ev[1]] + [ev[2]] + [ev[3]] + [ev[4]] + [ev[5]] + [ev[6]], [ev[7]]);
    } else {
      assert ev == [ev[0]] + [ev[1]];
      AppendCounts([ev[0]], [ev[1]]);
    }
  }

  /**
   * Retry pacing: `n` retryable failures take exactly `n` connection attempts and
   * `5000 * n` ms of delay.
   */
  lemma {:induction false} RetryPacing(outcomes: seq<Attempt>, subTopic: string)
    requires forall j | 0 <= j < |outcomes| :: Retryable(outcomes[j])
    ensures |RunEvents(outcomes, subTopic)| == 2 * |outcomes|
    ensures TotalDelay(RunEvents(outcomes, subTopic)) == RETRY_DELAY_MS * |outcomes|
  {
    if |outcomes| > 0 {
      var init := outcomes[..|outcomes| - 1];
      RetryPacing(init, subTopic);
      PassDelay(outcomes[|outcomes| - 1], subTopic);
      AppendCounts(RunEvents(init, subTopic), AttemptEvents(outcomes[|outcomes| - 1], subTopic));
    }
  }

  /** Every run of at least one pass begins with a connection attempt. */
  lemma {:induction false} RunStartsWithConnect(outcomes: seq<Attempt>, subTopic: string)
    requires |outcomes| > 0
    ensures |RunEvents(outcomes, subTopic)| > 0 && RunEvents(outcomes, subTopic)[0] == Connect
  {
    if |outcomes| > 1 {
      RunStartsWithConnect(outcomes[..|outcomes| - 1], subTopic);
    }
  }

  /**
   * Attempt `m` (counting from 0) starts only after `m` full retry delays: after the
   * failures before it, the trace is `2m` events long, holds `5000 * m` ms of delay, and
   * its next event is attempt `m`'s `Connect`.
   */
  lemma AttemptStart(outcomes: seq<Attempt>, subTopic: string, m: nat)
    requires m < |outcomes|
    requires forall j | 0 <= j < m :: Retryable(outcomes[j])
    ensures |RunEvents(outcomes, subTopic)| > 2 * m
    ensures RunEvents(outcomes, subTopic)[2 * m] == Connect
    ensures TotalDelay(RunEvents(outcomes, subTopic)[..2 * m]) == RETRY_DELAY_MS * m
  {
    var pre, post := outcomes[..m], outcomes[m..];
    assert outcomes == pre + post;
    RunEventsAppend(pre, post, subTopic);
    RetryPacing(pre, subTopic);
    RunStartsWithConnect(post, subTopic);
    var t, tp := RunEvents(outcomes, subTopic), RunEvents(pre, subTopic);
    assert t == tp + RunEvents(post, subTopic);
    assert t[..2 * m] == tp;
  }

  /**
   * The loop's final pass: it ends in `DeepSleep` for an unauthorized failure, and for a
   * success it re-installs the callback before it subscribes to the command topic at QoS 1.
   */
  lemma FinalPass(outcomes: seq<Attempt>, subTopic: string)
    requires |outcomes| > 0
    ensures var t := RunEvents(outcomes, subTopic);
      var last := outcomes[|outcomes| - 1];
      && (last == Refused(MQTT_CONNECT_UNAUTHORIZED) ==> t[|t| - 2..] == [Connect, DeepSleep])
      && (last == Accepted ==>
            t[|t| - 8..|t| - 5] == [Connect, SetCallback, Subscribe(subTopic, SUBSCRIBE_QOS)])
  {
    var t := RunEvents(outcomes, subTopic);
    var pre := RunEvents(outcomes[..|outcomes| - 1], subTopic);
    var ev := AttemptEvents(outcomes[|outcomes| - 1], subTopic);
    assert t == pre + ev;
    assert t[|pre|..] == ev;
  }

  /**
   * The delay of the whole loop: 5000 ms for each retryable failure before the final pass,
   * plus 2 x 100 ms of draining if the final pass connected.
   */
  lemma RunDelay(outcomes: seq<Attempt>, subTopic: string)
    ensures var k := FirstStop(outcomes);
      TotalDelay(RunEvents(outcomes[..Passes(outcomes)], subTopic))
        == RETRY_DELAY_MS * k + (if k < |outcomes| && outcomes[k] == Accepted then 2 * DRAIN_DELAY_MS else 0)
  {
    var k := FirstStop(outcomes);
    RetryPacing(outcomes[..k], subTopic);
    if k < |outcomes| {
      var used := outcomes[..k + 1];
      assert used[..k] == outcomes[..k];
      PassDelay(outcomes[k], subTopic);
      AppendCounts(RunEvents(outcomes[..k], subTopic), AttemptEvents(outcomes[k], subTopic));
    } else {
      assert outcomes[..k] == outcomes[..Passes(outcomes)];
    }
  }

  /**
   * The totals of the whole loop from a down link: one connection attempt per pass, and
   * 5000 ms per retryable failure plus 200 ms of draining if it connected.
   */
  lemma LoopTotals(c: Conn, outcomes: seq<Attempt>, subTopic: string)
    requires c.link == Down
    ensures var k, n := FirstStop(outcomes), Passes(outcomes);
      var events := PassAll(c, outcomes[..n], subTopic).events;
      && Connects(events) == Connects(c.events) + n
      && TotalDelay(events) == TotalDelay(c.events) + RETRY_DELAY_MS * k
           + (if k < |outcomes| && outcomes[k] == Accepted then 2 * DRAIN_DELAY_MS else 0)
  {
    var n := Passes(outcomes);
    var run := RunEvents(outcomes[..n], subTopic);
    PassAllEvents(c, outcomes[..n], subTopic);
    OneConnectPerPass(outcomes[..n], subTopic);
    RunDelay(outcomes, subTopic);
    AppendCounts(c.events, run);
  }

  /**
   * When the loop ends on an unauthorized failure, the alert after it names that failure's
   * state code.
   */
  lemma {:induction false} AlertNamesFinalFailure(alert: string, outcomes: seq<Attempt>)
    requires FirstStop(outcomes) < |outcomes| && outcomes[FirstStop(outcomes)].Refused?
    ensures ParseErrorMessage(AlertAfterLoop(alert, outcomes)) == Some(outcomes[FirstStop(outcomes)].code)
  {
    var code := outcomes[FirstStop(outcomes)].code;
    assert AlertAfterLoop(alert, outcomes) == ErrorMessage(code);
    ErrorMessageInverse(code);
  }

  /**
   * When the loop connects or runs out of outcomes, the alert after it names the state code
   * of the last retryable failure, and is the old alert only when no pass failed.
   */
  lemma {:induction false} AlertNamesRetriedFailure(alert: string, outcomes: seq<Attempt>)
    requires FirstStop(outcomes) == |outcomes| || outcomes[FirstStop(outcomes)] == Accepted
    ensures var k := FirstStop(outcomes);
      && (k > 0 ==> ParseErrorMessage(AlertAfterLoop(alert, outcomes)) == Some(outcomes[k - 1].code))
      && (k == 0 ==> AlertAfterLoop(alert, outcomes) == alert)
  {
    var k := FirstStop(outcomes);
    if k > 0 {
      var code := outcomes[k - 1].code;
      assert AlertAfterLoop(alert, outcomes) == ErrorMessage(code);
      ErrorMessageInverse(code);
    }
  }

  /**
   * Two generic failures (state -2, a refused network connection) and then a success: three
   * attempts, two 5000 ms retry waits plus the two 100 ms drains, and the link ends up.
   */
  lemma TwoFailuresThenConnect(alert: string, subTopic: string)
    ensures var o := [Refused(-2), Refused(-2), Accepted];
      && FirstStop(o) == 2 && Passes(o) == 3
      && PassAll(Conn(Down, alert, []), o, subTopic).link == Up
      && TotalDelay(RunEvents(o, subTopic)) == 2 * RETRY_DELAY_MS + 2 * DRAIN_DELAY_MS
      && Connects(RunEvents(o, subTopic)) == 3
  {
    var o := [Refused(-2), Refused(-2), Accepted];
    assert o[..3] == o;
    LoopOutcome(Conn(Down, alert, []), o, subTopic);
    RunDelay(o, subTopic);
    OneConnectPerPass(o, subTopic);
  }
}
