/** The durations of the observation bridge: how a configuration is completed, and how
    long a tick waits. Durations are nanoseconds in 64-bit arithmetic, wrap-around
    included.
 */
module ObservationTiming {

  import opened Int64

  const SECOND: int := 1_000_000_000
  const MILLISECOND: int := 1_000_000

  /** The durations of `pluginProtocolBridgeDeps`. */
  datatype Durations = Durations(
    submissionTimeout: int,
    observationTimeout: int,
    loadTimeout: int,
    tickInterval: int,
    tickJitter: int,
    heartbeatInterval: int,
    admissionTimeout: int,
    imagePollInterval: int)

  /** The settings the defaults are computed from. */
  datatype Settings = Settings(timeoutSeconds: int, tickMilliseconds: int,
    jitterMilliseconds: int, heartbeatSeconds: int)

  const CALL_TIMEOUT: int := 5 * SECOND
  const IMAGE_POLL_INTERVAL: int := 3 * SECOND

  function OrElse(d: int, fallback: int): int {
    if d <= 0 then fallback else d
  }

  /** `defaultPluginProtocolBridgeDeps` */
  function Defaults(s: Settings): Durations {
    var timeout := OrElse(Wrap(s.timeoutSeconds * SECOND), 600 * SECOND);
    var tick := OrElse(Wrap(s.tickMilliseconds * MILLISECOND), 2 * SECOND);
    var jitter := OrElse(Wrap(s.jitterMilliseconds * MILLISECOND), 0);
    var heartbeat := OrElse(Wrap(s.heartbeatSeconds * SECOND), 15 * SECOND);
    var load := if 0 < heartbeat / 2 < 5 * SECOND then heartbeat / 2 else 5 * SECOND;
    Durations(timeout, timeout, load, tick, jitter, heartbeat, CALL_TIMEOUT, IMAGE_POLL_INTERVAL)
  }

  /** `withDefaults` */
  function WithDefaults(d: Durations, s: Settings): Durations {
    var defaults := Defaults(s);
    var heartbeat := OrElse(d.heartbeatInterval, defaults.heartbeatInterval);
    var load := OrElse(d.loadTimeout, defaults.loadTimeout);
    Durations(
      OrElse(d.submissionTimeout, defaults.submissionTimeout),
      OrElse(d.observationTimeout, defaults.observationTimeout),
      if 0 < heartbeat / 2 < load then heartbeat / 2 else load,
      OrElse(d.tickInterval, defaults.tickInterval),
      OrElse(d.tickJitter, 0),
      heartbeat,
      OrElse(d.admissionTimeout, defaults.admissionTimeout),
      OrElse(d.imagePollInterval, defaults.imagePollInterval))
  }

  predicate Positive(d: Durations) {
    && d.submissionTimeout > 0 && d.observationTimeout > 0 && d.loadTimeout > 0 && d.tickInterval > 0
    && d.tickJitter >= 0 && d.heartbeatInterval > 0 && d.admissionTimeout > 0 && d.imagePollInterval > 0
  }

  /** From any configuration and any settings the completed durations are positive, a load
      never outlasts half a heartbeat, and completing again changes nothing. */
  lemma CompletedDurations(d: Durations, s: Settings)
    ensures Positive(WithDefaults(d, s))
    ensures WithDefaults(d, s).heartbeatInterval >= 2 ==>
      WithDefaults(d, s).loadTimeout <= WithDefaults(d, s).heartbeatInterval / 2
    ensures WithDefaults(WithDefaults(d, s), s) == WithDefaults(d, s)
    ensures Positive(d) && (d.heartbeatInterval >= 2 ==> d.loadTimeout <= d.heartbeatInterval / 2) ==>
      WithDefaults(d, s) == d
  {
  }

  /** A duration that is given is used, but for a load that would outlast half a heartbeat. */
  lemma GivenDurations(d: Durations, s: Settings)
    ensures var u := WithDefaults(d, s);
            && (d.submissionTimeout > 0 ==> u.submissionTimeout == d.submissionTimeout)
            && (d.observationTimeout > 0 ==> u.observationTimeout == d.observationTimeout)
            && (d.loadTimeout > 0 ==> u.loadTimeout <= d.loadTimeout)
            && (d.tickInterval > 0 ==> u.tickInterval == d.tickInterval)
            && (d.tickJitter > 0 ==> u.tickJitter == d.tickJitter)
            && (d.heartbeatInterval > 0 ==> u.heartbeatInterval == d.heartbeatInterval)
            && (d.admissionTimeout > 0 ==> u.admissionTimeout == d.admissionTimeout)
            && (d.imagePollInterval > 0 ==> u.imagePollInterval == d.imagePollInterval)
  {
  }

  /** A positive number of seconds or milliseconds that is no overflow. */
  predicate Usable(n: int, unit: int) {
    n > 0 && n * unit <= MAX64
  }

  /** A duration that is not given comes from the settings, in its unit. */
  lemma DurationsFromSettings(d: Durations, s: Settings)
    ensures var u := WithDefaults(d, s);
            && (d.submissionTimeout <= 0 && Usable(s.timeoutSeconds, 1_000_000_000) ==>
                  u.submissionTimeout == s.timeoutSeconds * 1_000_000_000)
            && (d.observationTimeout <= 0 && Usable(s.timeoutSeconds, 1_000_000_000) ==>
                  u.observationTimeout == s.timeoutSeconds * 1_000_000_000)
            && (d.tickInterval <= 0 && Usable(s.tickMilliseconds, 1_000_000) ==>
                  u.tickInterval == s.tickMilliseconds * 1_000_000)
            && (d.heartbeatInterval <= 0 && Usable(s.heartbeatSeconds, 1_000_000_000) ==>
                  u.heartbeatInterval == s.heartbeatSeconds * 1_000_000_000)
  {
    if Usable(s.timeoutSeconds, SECOND) {
      WrapIs64(s.timeoutSeconds * SECOND);
    }
    if Usable(s.tickMilliseconds, MILLISECOND) {
      WrapIs64(s.tickMilliseconds * MILLISECOND);
    }
    if Usable(s.heartbeatSeconds, SECOND) {
      WrapIs64(s.heartbeatSeconds * SECOND);
    }
  }

  /** `pluginProtocolTickDelay`: the hash of task and tick spreads the delays. */
  function TickDelay(hash: nat, base: int, jitter: int): int {
    if jitter <= 0 then base else Wrap(base + hash % (jitter + 1))
  }

  /** The delay of a tick after an overloaded load or hook, or a slow hook. */
  function SlowDelay(hash: nat, base: int, jitter: int): int {
    Wrap(TickDelay(hash, base, jitter) + base)
  }

  lemma WrapOverflows(n: int)
    requires MAX64 < n <= 2 * MAX64
    ensures Wrap(n) < 0
  {
  }

  lemma TickFits(hash: nat, base: int, jitter: int)
    requires 0 < base && 0 <= jitter && base + jitter <= MAX64
    ensures base <= TickDelay(hash, base, jitter) <= base + jitter
  {
    if jitter > 0 {
      WrapIs64(base + hash % (jitter + 1));
    }
  }

  lemma TickOverflows(base: int, jitter: int)
    requires 0 < base <= MAX64 && 0 < jitter <= MAX64 && base + jitter > MAX64
    ensures TickDelay(jitter, base, jitter) < 0
  {
    assert jitter % (jitter + 1) == jitter;
    WrapOverflows(base + jitter);
  }

  /** A regular tick waits between `base` and `base + jitter` whatever the hash, if and
      only if their sum fits into 64 bits. */
  lemma TickDelayBounds(base: int, jitter: int)
    requires 0 < base <= MAX64 && 0 <= jitter <= MAX64
    ensures (forall hash: nat :: base <= TickDelay(hash, base, jitter) <= base + jitter) <==> base + jitter <= MAX64
  {
    if base + jitter <= MAX64 {
      forall hash: nat
        ensures base <= TickDelay(hash, base, jitter) <= base + jitter
      {
        TickFits(hash, base, jitter);
      }
    } else {
      TickOverflows(base, jitter);
    }
  }

  lemma SlowFits(hash: nat, base: int, jitter: int)
    requires 0 < base && 0 <= jitter && 2 * base + jitter <= MAX64
    ensures 2 * base <= SlowDelay(hash, base, jitter) <= 2 * base + jitter
  {
    TickFits(hash, base, jitter);
    WrapIs64(TickDelay(hash, base, jitter) + base);
  }

  /** The largest hash makes the wait too short, however often the sum wraps. */
  lemma SlowOverflows(base: int, jitter: int)
    requires 0 < base <= MAX64 && 0 <= jitter <= MAX64 && 2 * base + jitter > MAX64
    ensures SlowDelay(jitter, base, jitter) < 2 * base
  {
    assert jitter % (jitter + 1) == jitter;
    WrapAdd(base + jitter, base);
  }

  /** A slow tick waits between two intervals and two intervals plus the jitter whatever the
      hash, if and only if that sum fits into 64 bits. */
  lemma SlowDelayBounds(base: int, jitter: int)
    requires 0 < base <= MAX64 && 0 <= jitter <= MAX64
    ensures (forall hash: nat :: 2 * base <= SlowDelay(hash, base, jitter) <= 2 * base + jitter)
            <==> 2 * base + jitter <= MAX64
  {
    if 2 * base + jitter <= MAX64 {
      forall hash: nat
        ensures 2 * base <= SlowDelay(hash, base, jitter) <= 2 * base + jitter
      {
        SlowFits(hash, base, jitter);
      }
    } else {
      SlowOverflows(base, jitter);
    }
  }

  /** Two intervals and the jitter fit into 64 bits: the condition of both bounds. */
  predicate Sane(d: Durations) {
    Positive(d) && 2 * d.tickInterval + d.tickJitter <= MAX64
  }

  /** Every wait lasts between one interval and two intervals plus the jitter, if and only if
      the configuration is sane. */
  lemma DelayBounds(d: Durations)
    requires Positive(d) && Is64(d.tickInterval) && Is64(d.tickJitter)
    ensures Sane(d) <==>
      forall hash: nat ::
        && d.tickInterval <= TickDelay(hash, d.tickInterval, d.tickJitter) <= d.tickInterval + d.tickJitter
        && 2 * d.tickInterval <= SlowDelay(hash, d.tickInterval, d.tickJitter) <= 2 * d.tickInterval + d.tickJitter
  {
    if Sane(d) {
      forall hash: nat
        ensures d.tickInterval <= TickDelay(hash, d.tickInterval, d.tickJitter) <= d.tickInterval + d.tickJitter
        ensures 2 * d.tickInterval <= SlowDelay(hash, d.tickInterval, d.tickJitter) <= 2 * d.tickInterval + d.tickJitter
      {
        TickFits(hash, d.tickInterval, d.tickJitter);
        SlowFits(hash, d.tickInterval, d.tickJitter);
      }
    } else {
      SlowOverflows(d.tickInterval, d.tickJitter);
    }
  }

  /** The wait of a tick: a timer that is not positive fires at once. */
  function Delay(hash: nat, d: Durations, slow: bool): nat {
    var delay := if slow then SlowDelay(hash, d.tickInterval, d.tickJitter)
                 else TickDelay(hash, d.tickInterval, d.tickJitter);
    if delay < 0 then 0 else delay
  }

  lemma SaneDelay(hash: nat, d: Durations, slow: bool)
    requires Sane(d)
    ensures var least := if slow then 2 * d.tickInterval else d.tickInterval;
            least <= Delay(hash, d, slow) <= least + d.tickJitter
  {
    TickFits(hash, d.tickInterval, d.tickJitter);
    SlowFits(hash, d.tickInterval, d.tickJitter);
  }
}
