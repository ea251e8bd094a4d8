/** The health check that the worker pool runs on every channel, and the summary of a cycle
    of health checks.
 */
module HealthChecks {
  import opened Options
  import opened WorkerPool

  /** An error of the upstream, as far as `ShouldDisableChannel` looks at it. */
  datatype ApiError = ApiError(ofChannel: bool, skipRetry: bool, byStatusCode: bool, byKeyword: bool)

  /** What `testChannelForHealthCheck` learns about a channel. */
  datatype Probe = Probe(
    contextDone: bool,       // ctx.Err() after the test
    error: Option<ApiError>,
    localError: bool,
    milliseconds: int)

  datatype Status = StatusEnabled | StatusManuallyDisabled | StatusAutoDisabled | StatusUnknown

  datatype Policy = Policy(
    automaticDisable: bool, automaticEnable: bool, allowDisable: bool, threshold: int, status: Status, autoBan: bool)

  predicate ShouldDisable(error: Option<ApiError>, policy: Policy) {
    if !policy.automaticDisable || error.None? then false
    else if error.value.ofChannel then true
    else if error.value.skipRetry then false
    else error.value.byStatusCode || error.value.byKeyword
  }

  predicate ShouldEnable(failed: bool, policy: Policy) {
    policy.automaticEnable && !failed && policy.status.StatusAutoDisabled?
  }

  function Bit(b: bool): int {
    if b then 1 else 0
  }

  function HealthCheck(probe: Probe, policy: Policy): Summary {
    if probe.contextDone then Zero
    else
      var refused := ShouldDisable(probe.error, policy);
      var slow := policy.automaticDisable && !refused && probe.milliseconds > policy.threshold;
      var failed := probe.error.Some? || slow;
      var disabled := policy.allowDisable && policy.status.StatusEnabled? && (refused || slow) && policy.autoBan;
      var enabled := !probe.localError && !policy.status.StatusEnabled? && ShouldEnable(failed, policy);
      Summary(1, Bit(!failed), Bit(failed), Bit(disabled), Bit(enabled))
  }

  /** The answer came too late. */
  predicate Late(probe: Probe, policy: Policy) {
    policy.automaticDisable && probe.milliseconds > policy.threshold
  }

  /** The error counts against the channel: it is the channel's own, or it may be retried
      and its status code or its message is listed. */
  predicate Damning(e: ApiError) {
    e.ofChannel || (!e.skipRetry && (e.byStatusCode || e.byKeyword))
  }

  /** A test succeeds exactly without an error and in time. A channel is disabled exactly
      when it is enabled, may be, and failed by a damning error or by coming late while
      automatic disabling is on; it is enabled again exactly when it was disabled
      automatically, succeeds without a local error, and automatic enabling is on. */
  lemma HealthCheckExactly(probe: Probe, policy: Policy)
    requires !probe.contextDone
    ensures var r := HealthCheck(probe, policy);
            && (r.succeeded == 1 <==> probe.error.None? && !Late(probe, policy))
            && (r.disabled == 1 <==>
                 && policy.status.StatusEnabled? && policy.autoBan && policy.allowDisable && policy.automaticDisable
                 && (probe.milliseconds > policy.threshold || (probe.error.Some? && Damning(probe.error.value))))
            && (r.enabled == 1 <==>
                 policy.status.StatusAutoDisabled? && policy.automaticEnable && !probe.localError && r.succeeded == 1)
  {
    RefusedExactly(probe.error, policy);
  }

  lemma RefusedExactly(error: Option<ApiError>, policy: Policy)
    ensures ShouldDisable(error, policy) <==> policy.automaticDisable && error.Some? && Damning(error.value)
  {
  }

  /** The counts that one finished test contributes. */
  predicate Healthy(r: Summary) {
    && 0 <= r.succeeded && 0 <= r.failed && r.tested == r.succeeded + r.failed <= 1
    && 0 <= r.disabled <= r.failed && 0 <= r.enabled <= r.succeeded
  }

  lemma CheckIsHealthy(probe: Probe, policy: Policy)
    ensures Healthy(HealthCheck(probe, policy))
    ensures HealthCheck(probe, policy).tested == 1 <==> !probe.contextDone
  {
  }

  /** A faster answer never fails or disables a channel that a slower one did not, and never
      leaves one disabled that a slower one enables. */
  lemma FasterIsNoWorse(probe: Probe, policy: Policy, milliseconds: int)
    requires milliseconds <= probe.milliseconds
    ensures var r, faster := HealthCheck(probe, policy), HealthCheck(probe.(milliseconds := milliseconds), policy);
            faster.failed <= r.failed && faster.disabled <= r.disabled && r.enabled <= faster.enabled
  {
    if !probe.contextDone {
      HealthCheckExactly(probe, policy);
      HealthCheckExactly(probe.(milliseconds := milliseconds), policy);
    }
  }

  /** The test that returns here is a health check: it leaves early only when the context
      was cancelled. */
  ghost predicate IsHealthCheck(p: Pool, m: Move) {
    m.RunReturns? ==>
      exists probe, policy :: m.result == HealthCheck(probe, policy) && (probe.contextDone ==> p.cancelled)
  }

  /** Every test of the run is a health check. */
  ghost predicate HealthRun(p: Pool, moves: seq<Move>)
    requires Possible(p, moves)
    decreases |moves|
  {
    moves == [] || (IsHealthCheck(p, moves[0]) && HealthRun(Next(p, moves[0]), moves[1..]))
  }

  ghost predicate HealthResult(p: Pool, j: nat) {
    j in p.results && j < |p.channels| ==>
      && Healthy(p.results[j])
      && (!p.cancelled ==> p.results[j].tested == if p.channels[j].Testable? then 1 else 0)
  }

  ghost predicate HealthResults(p: Pool) {
    forall j :: HealthResult(p, j)
  }

  lemma {:induction false} NextHealthResults(p: Pool, m: Move)
    requires Exclusive(p) && HealthResults(p) && Enabled(p, m) && IsHealthCheck(p, m)
    ensures HealthResults(Next(p, m))
  {
    match m
    case RunReturns(w, result) =>
      assert WorkerOk(p, w) && p.workers[w].job in p.runs;
      var probe, policy :| result == HealthCheck(probe, policy) && (probe.contextDone ==> p.cancelled);
      CheckIsHealthy(probe, policy);
      AddHealthResult(p, p.workers[w].job, result);
      SameHealthResults(p.(results := p.results[p.workers[w].job := result]), Next(p, m));
    case Look(w) =>
      var job := p.workers[w].job;
      if p.cancelled || p.channels[job].Testable? {
        SameHealthResults(p, Next(p, m));
      } else {
        AddHealthResult(p, job, Zero);
        SameHealthResults(p.(results := p.results[job := Zero]), Next(p, m));
      }
    case _ =>
      QuietMove(p, m);
      SameHealthResults(p, Next(p, m));
  }

  lemma {:induction false} SameHealthResults(p: Pool, q: Pool)
    requires HealthResults(p) && q.channels == p.channels && q.results == p.results && (p.cancelled ==> q.cancelled)
    ensures HealthResults(q)
  {
    forall j: nat
      ensures HealthResult(q, j)
    {
      assert HealthResult(p, j);
    }
  }

  lemma {:induction false} AddHealthResult(p: Pool, job: nat, result: Summary)
    requires HealthResults(p) && job < |p.channels| && Healthy(result)
    requires !p.cancelled ==> result.tested == if p.channels[job].Testable? then 1 else 0
    ensures HealthResults(p.(results := p.results[job := result]))
  {
    var q := p.(results := p.results[job := result]);
    forall j: nat
      ensures HealthResult(q, j)
    {
      assert HealthResult(p, j);
    }
  }

  lemma {:induction false} AfterHealthResults(p: Pool, moves: seq<Move>)
    requires Invariant(p) && HealthResults(p) && Possible(p, moves) && HealthRun(p, moves)
    ensures HealthResults(After(p, moves))
    decreases |moves|
  {
    if moves != [] {
      NextInvariant(p, moves[0]);
      NextHealthResults(p, moves[0]);
      AfterHealthResults(Next(p, moves[0]), moves[1..]);
    }
  }

  function Testables(channels: seq<Channel>, n: nat): nat
    requires n <= |channels|
  {
    if n == 0 then 0 else Testables(channels, n - 1) + (if channels[n - 1].Testable? then 1 else 0)
  }

  lemma {:induction false} TotalHealthy(p: Pool, n: nat)
    requires n <= |p.channels| && HealthResults(p)
    ensures var t := Total(p.results, n);
            && t.tested == t.succeeded + t.failed <= Done(p.results, n)
            && 0 <= t.disabled <= t.failed && 0 <= t.enabled <= t.succeeded
            && (!p.cancelled && (forall j :: 0 <= j < n ==> j in p.results) ==> t.tested == Testables(p.channels, n))
  {
    if n > 0 {
      assert HealthResult(p, n - 1);
      TotalHealthy(p, n - 1);
    }
  }

  /** The jobs that a counter counts. */
  function Counted(p: Pool, n: nat, c: Counter): set<nat> {
    set j: nat | j < n && j in p.results && Count(c, p.results[j]) == 1
  }

  lemma CountsOnce(r: Summary, c: Counter)
    requires Healthy(r)
    ensures 0 <= Count(c, r) <= 1
  {
  }

  lemma {:induction false} CountedStep(p: Pool, n: nat, c: Counter)
    ensures Counted(p, n + 1, c)
         == if n in p.results && Count(c, p.results[n]) == 1 then Counted(p, n, c) + {n} else Counted(p, n, c)
    ensures n !in Counted(p, n, c)
  {
  }

  lemma {:induction false} SumIsNumber(p: Pool, n: nat, c: Counter)
    requires n <= |p.channels| && HealthResults(p)
    ensures SumOf(p.results, n, c) == |Counted(p, n, c)|
  {
    if n > 0 {
      SumIsNumber(p, n - 1, c);
      CountedStep(p, n - 1, c);
      assert HealthResult(p, n - 1);
      if n - 1 in p.results {
        CountsOnce(p.results[n - 1], c);
      }
    }
  }

  /** Every counter in the summary of a cycle of health checks is the number of channels
      whose test counts there. The summary is coherent whatever happens, and a cycle that is
      not cancelled tests every testable channel exactly once. */
  lemma {:induction false} HealthSummary(
    channels: seq<Channel>, concurrency: int, pauses: bool, cancelled: bool, moves: seq<Move>)
    requires channels != [] && Possible(Start(channels, concurrency, pauses, cancelled), moves)
    requires HealthRun(Start(channels, concurrency, pauses, cancelled), moves)
    requires After(Start(channels, concurrency, pauses, cancelled), moves).reducer.Returned?
    ensures var p := After(Start(channels, concurrency, pauses, cancelled), moves);
            && p.summary.tested == p.summary.succeeded + p.summary.failed <= p.processed
            && 0 <= p.summary.disabled <= p.summary.failed && 0 <= p.summary.enabled <= p.summary.succeeded
            && (forall c :: Count(c, p.summary) == |Counted(p, |channels|, c)|)
            && (!p.cancelled ==> p.summary.tested == Testables(channels, |channels|))
  {
    var p0 := Start(channels, concurrency, pauses, cancelled);
    StartInvariant(channels, concurrency, pauses, cancelled);
    AfterHealthResults(p0, moves);
    AfterKeepsChannels(p0, moves);
    PoolOutcome(channels, concurrency, pauses, cancelled, moves);
    var p := After(p0, moves);
    TotalHealthy(p, |channels|);
    forall c ensures Count(c, p.summary) == |Counted(p, |channels|, c)| {
      SumIsNumber(p, |channels|, c);
      TotalCounts(p.results, |channels|, c);
    }
    forall c ensures Count(c, p.summary) == Count(c, Total(p.results, |channels|)) {
      TotalCounts(p.results, |channels|, c);
    }
    assert Count(Tests, p.summary) == Count(Tests, Total(p.results, |channels|));
    assert Count(Successes, p.summary) == Count(Successes, Total(p.results, |channels|));
    assert Count(Failures, p.summary) == Count(Failures, Total(p.results, |channels|));
    assert Count(Disablings, p.summary) == Count(Disablings, Total(p.results, |channels|));
    assert Count(Enablings, p.summary) == Count(Enablings, Total(p.results, |channels|));
  }
}
