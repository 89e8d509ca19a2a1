/**
 * The device's millisecond clock. `millis()` returns a 32-bit `unsigned long` that wraps
 * around after about 49.7 days; every timer in libiot.cpp subtracts a stored stamp from it
 * in that unsigned type, so the difference is taken modulo 2^32.
 */
module Clock {
  const MODULUS: int := 0x1_0000_0000

  /** A reading of `millis()`, or a stamp taken from it: an unsigned 32-bit value. */
  type Millis = n: int | 0 <= n < MODULUS

  /**
   * `now - since` in unsigned 32-bit arithmetic: the time elapsed since `since`, across a
   * wrap of the counter.
   */
  function Since(now: Millis, since: Millis): (r: Millis)
    ensures (since + r) % MODULUS == now
    ensures since <= now ==> r == now - since
    ensures now < since ==> r == MODULUS - since + now
  {
    (now - since) % MODULUS
  }

  /** The strict gate `now - last > interval` used by `measure` and the MQTT healthcheck. */
  predicate IntervalPassed(now: Millis, last: Millis, interval: Millis)
    ensures IntervalPassed(now, last, interval) ==> now != last
    ensures last <= now ==> (IntervalPassed(now, last, interval) <==> now - last > interval)
    ensures now < last ==> (IntervalPassed(now, last, interval) <==> MODULUS - last + now > interval)
  {
    Since(now, last) > interval
  }

  /** The gate `now - since >= duration` that expires an alert. */
  predicate Expired(now: Millis, since: Millis, duration: Millis)
    ensures Expired(now, since, 0)
    ensures since <= now ==> (Expired(now, since, duration) <==> now - since >= duration)
    ensures now < since ==> (Expired(now, since, duration) <==> MODULUS - since + now >= duration)
  {
    Since(now, since) >= duration
  }

  /** A configured number of seconds as the millisecond threshold `seconds * 1000`. */
  function SecondsToMillis(seconds: nat): (r: Millis)
    requires seconds * 1000 < MODULUS
    ensures r / 1000 == seconds && r % 1000 == 0
  {
    seconds * 1000
  }

  /** Elapsed time is zero exactly when the two readings are equal. */
  lemma SinceZero(now: Millis, since: Millis)
    ensures Since(now, since) == 0 <==> now == since
  {
  }
}
