/** The bounded worker pool that runs channel tests: a feeder, workers, a closer and a
    reducer over two unbuffered channels, with cancellation possible at any moment. The
    pool is a step relation; a hand-over on an unbuffered channel is one step of both
    sides. The facts proved here hold for every interleaving.
 */
module WorkerPool {
  import opened Options

  /** `channelTestSummary` */
  datatype Summary = Summary(tested: int, succeeded: int, failed: int, disabled: int, enabled: int)

  const Zero := Summary(0, 0, 0, 0, 0)

  function Plus(a: Summary, b: Summary): Summary {
    Summary(a.tested + b.tested, a.succeeded + b.succeeded, a.failed + b.failed,
            a.disabled + b.disabled, a.enabled + b.enabled)
  }

  const DEFAULT_CONCURRENCY := 1
  const MAX_CONCURRENCY := 32

  function NormalizeConcurrency(concurrency: int): int {
    if concurrency < 1 then DEFAULT_CONCURRENCY
    else if concurrency > MAX_CONCURRENCY then MAX_CONCURRENCY
    else concurrency
  }

  function WorkerCount(concurrency: int, total: nat): int {
    var n := NormalizeConcurrency(concurrency);
    if n < total then n else total
  }

  /** A channel to test: absent, disabled by hand, or to be run. */
  datatype Channel = Nil | ManuallyDisabled | Testable

  /** What a worker is doing. Jobs are named by their position in the list of channels. */
  datatype Phase =
    | Selecting                           // in the select on ctx.Done and jobs
    | Holding(job: nat)                   // received a job, about to look at ctx.Err
    | Running(job: nat)                   // inside run
    | Sending(job: nat, result: Summary)  // blocked on results <- result
    | Pausing                             // in the RequestInterval select
    | Exited

  datatype Reducer = Receiving | Folding(result: Summary) | Returned

  /** `runs` and `results` are the history of the pool: the jobs that `run` was called
      for, in order, and what every finished job produced. */
  datatype Pool = Pool(
    channels: seq<Channel>,
    pauses: bool,                         // RequestInterval > 0
    cancelled: bool,
    fed: nat,                             // jobs handed to a worker
    jobsClosed: bool,
    workers: seq<Phase>,
    resultsClosed: bool,
    reducer: Reducer,
    summary: Summary,
    processed: nat,
    reports: seq<nat>,                    // progress reported so far
    runs: seq<nat>,
    results: map<nat, Summary>)

  datatype Move =
    | Cancel
    | Feed(w: nat)
    | FeederClose
    | WorkerExit(w: nat)
    | Look(w: nat)
    | RunReturns(w: nat, result: Summary)
    | Deliver(w: nat)
    | Fold
    | Resume(w: nat)
    | CloseResults
    | Return

  predicate Is(p: Pool, w: nat, phase: Phase) {
    w < |p.workers| && p.workers[w] == phase
  }

  predicate AllExited(workers: seq<Phase>) {
    forall w :: 0 <= w < |workers| ==> workers[w].Exited?
  }

  predicate Enabled(p: Pool, m: Move) {
    match m
    case Cancel => !p.cancelled
    case Feed(w) => !p.jobsClosed && p.fed < |p.channels| && Is(p, w, Selecting)
    case FeederClose => !p.jobsClosed && (p.cancelled || p.fed == |p.channels|)
    case WorkerExit(w) =>
      w < |p.workers| &&
      ((p.workers[w].Selecting? && (p.cancelled || p.jobsClosed)) || (p.workers[w].Pausing? && p.cancelled))
    case Look(w) => w < |p.workers| && p.workers[w].Holding? && p.workers[w].job < |p.channels|
    case RunReturns(w, _) => w < |p.workers| && p.workers[w].Running?
    case Deliver(w) => w < |p.workers| && p.workers[w].Sending? && p.reducer.Receiving?
    case Fold => p.reducer.Folding?
    case Resume(w) => Is(p, w, Pausing)
    case CloseResults => !p.resultsClosed && AllExited(p.workers)
    case Return => p.reducer.Receiving? && p.resultsClosed
  }

  function Set(p: Pool, w: nat, phase: Phase): Pool
    requires w < |p.workers|
  {
    p.(workers := p.workers[w := phase])
  }

  function Next(p: Pool, m: Move): Pool
    requires Enabled(p, m)
  {
    match m
    case Cancel => p.(cancelled := true)
    case Feed(w) => Set(p, w, Holding(p.fed)).(fed := p.fed + 1)
    case FeederClose => p.(jobsClosed := true)
    case WorkerExit(w) => Set(p, w, Exited)
    case Look(w) =>
      var job := p.workers[w].job;
      if p.cancelled then Set(p, w, Exited)
      else if p.channels[job].Testable? then Set(p, w, Running(job)).(runs := p.runs + [job])
      else Set(p, w, Sending(job, Zero)).(results := p.results[job := Zero])
    case RunReturns(w, result) =>
      var job := p.workers[w].job;
      Set(p, w, Sending(job, result)).(results := p.results[job := result])
    case Deliver(w) =>
      Set(p, w, if p.pauses then Pausing else Selecting).(reducer := Folding(p.workers[w].result))
    case Fold =>
      p.(reducer := Receiving, summary := Plus(p.summary, p.reducer.result), processed := p.processed + 1,
         reports := if p.cancelled then p.reports else p.reports + [p.processed + 1])
    case Resume(w) => Set(p, w, Selecting)
    case CloseResults => p.(resultsClosed := true)
    case Return => p.(reducer := Returned)
  }

  /** The pool as `runChannelTestWorkers` starts it; `cancelled` may already hold. */
  function Start(channels: seq<Channel>, concurrency: int, pauses: bool, cancelled: bool): Pool
    requires channels != []
  {
    Pool(channels, pauses, cancelled, 0, false, seq(WorkerCount(concurrency, |channels|), _ => Selecting),
         false, Receiving, Zero, 0, [0], [], map[])
  }

  predicate Finished(p: Pool) {
    p.jobsClosed && AllExited(p.workers) && p.resultsClosed && p.reducer.Returned?
  }

  // ------------------------------------------------------------------ runs

  predicate Possible(p: Pool, moves: seq<Move>)
    decreases |moves|
  {
    moves == [] || (Enabled(p, moves[0]) && Possible(Next(p, moves[0]), moves[1..]))
  }

  function After(p: Pool, moves: seq<Move>): Pool
    requires Possible(p, moves)
    decreases |moves|
  {
    if moves == [] then p else After(Next(p, moves[0]), moves[1..])
  }

  // ------------------------------------------------------------ who has a job

  /** The job a worker has in hand, or -1. */
  function JobOf(phase: Phase): int {
    if phase.Holding? || phase.Running? || phase.Sending? then phase.job else -1
  }

  ghost predicate WorkerOk(p: Pool, w: nat) {
    w < |p.workers| ==>
      var phase := p.workers[w];
      && JobOf(phase) < p.fed
      && (phase.Holding? ==> phase.job !in p.results && phase.job !in p.runs)
      && (phase.Running? ==> phase.job !in p.results && phase.job in p.runs)
      && (phase.Sending? ==> phase.job in p.results && p.results[phase.job] == phase.result)
  }

  ghost predicate Apart(p: Pool, v: nat, w: nat) {
    v < w < |p.workers| ==> JobOf(p.workers[v]) != JobOf(p.workers[w]) || JobOf(p.workers[v]) == -1
  }

  /** A job runs at most once, and has a result only if it ran or did not have to. */
  ghost predicate HistoryOk(p: Pool) {
    && p.fed <= |p.channels|
    && Distinct(p.runs)
    && (forall j :: j in p.results ==> j < p.fed)
    && (forall j :: j in p.runs ==> j < p.fed && p.channels[j].Testable?)
    && (forall j :: j in p.results && p.channels[j].Testable? ==> j in p.runs)
    && (forall j :: j in p.results && !p.channels[j].Testable? ==> p.results[j] == Zero)
  }

  /** A job is with at most one worker and runs at most once. */
  ghost predicate Exclusive(p: Pool) {
    HistoryOk(p) && (forall w :: WorkerOk(p, w)) && (forall v, w :: Apart(p, v, w))
  }

  /** The worker that makes the move, if it is a worker's move. */
  function Mover(m: Move): nat {
    match m
    case Feed(w) => w
    case WorkerExit(w) => w
    case Look(w) => w
    case RunReturns(w, _) => w
    case Deliver(w) => w
    case Resume(w) => w
    case _ => 0
  }

  predicate ByWorker(m: Move) {
    m.Feed? || m.WorkerExit? || m.Look? || m.RunReturns? || m.Deliver? || m.Resume?
  }

  /** Only a worker's move changes a worker, and only that one. */
  lemma {:induction false} NextWorkers(p: Pool, m: Move)
    requires Enabled(p, m)
    ensures var q := Next(p, m);
            if ByWorker(m)
            then Mover(m) < |p.workers| == |q.workers| && q.workers == p.workers[Mover(m) := q.workers[Mover(m)]]
            else q.workers == p.workers
  {
  }

  /** The worker keeps its job, puts it down or takes the next one. */
  lemma {:induction false} NextJob(p: Pool, m: Move)
    requires Enabled(p, m) && ByWorker(m)
    ensures var job := JobOf(Next(p, m).workers[Mover(m)]);
            job == JobOf(p.workers[Mover(m)]) || job == -1 || job == p.fed
  {
  }

  /** The worker that moves has what belongs to its new phase. */
  lemma {:induction false} MoverOk(p: Pool, m: Move)
    requires HistoryOk(p) && WorkerOk(p, Mover(m)) && Enabled(p, m) && ByWorker(m)
    ensures WorkerOk(Next(p, m), Mover(m))
  {
    match m
    case Feed(w) =>
    case WorkerExit(w) =>
    case Look(w) =>
    case RunReturns(w, _) =>
    case Deliver(w) =>
    case Resume(w) =>
  }

  /** A move leaves the history of every job alone but for that of the worker that moves. */
  lemma {:induction false} OtherJobs(p: Pool, m: Move, job: nat)
    requires Enabled(p, m) && (ByWorker(m) ==> job != JobOf(p.workers[Mover(m)]))
    ensures var q := Next(p, m);
            && p.fed <= q.fed && (job in q.runs <==> job in p.runs) && (job in q.results <==> job in p.results)
            && (job in p.results ==> q.results[job] == p.results[job])
  {
    match m
    case Look(w) =>
    case RunReturns(w, _) =>
    case _ => QuietMove(p, m);
  }

  lemma {:induction false} NextWorkerOk(p: Pool, m: Move, w: nat)
    requires Exclusive(p) && Enabled(p, m)
    ensures WorkerOk(Next(p, m), w)
  {
    NextWorkers(p, m);
    assert WorkerOk(p, w) && WorkerOk(p, Mover(m)) && Apart(p, w, Mover(m)) && Apart(p, Mover(m), w);
    if ByWorker(m) && w == Mover(m) {
      MoverOk(p, m);
    } else if w < |p.workers| && JobOf(p.workers[w]) != -1 {
      OtherJobs(p, m, JobOf(p.workers[w]));
    } else {
      NextFed(p, m);
    }
  }

  lemma {:induction false} NextFed(p: Pool, m: Move)
    requires Enabled(p, m)
    ensures p.fed <= Next(p, m).fed
  {
  }

  lemma {:induction false} ApartKept(p: Pool, workers: seq<Phase>, i: nat, v: nat, w: nat)
    requires Apart(p, v, w) && WorkerOk(p, v) && WorkerOk(p, w) && i < |p.workers| == |workers|
    requires workers == p.workers[i := workers[i]]
    requires JobOf(workers[i]) == JobOf(p.workers[i]) || JobOf(workers[i]) == -1 || JobOf(workers[i]) == p.fed
    ensures Apart(p.(workers := workers), v, w)
  {
  }

  lemma {:induction false} NextApart(p: Pool, m: Move, v: nat, w: nat)
    requires Exclusive(p) && Enabled(p, m)
    ensures Apart(Next(p, m), v, w)
  {
    NextWorkers(p, m);
    assert Apart(p, v, w) && WorkerOk(p, v) && WorkerOk(p, w);
    if ByWorker(m) {
      NextJob(p, m);
      ApartKept(p, Next(p, m).workers, Mover(m), v, w);
    }
  }

  /** Only looking at a job and returning from a test add to the history. */
  lemma {:induction false} QuietMove(p: Pool, m: Move)
    requires Enabled(p, m) && !m.Look? && !m.RunReturns?
    ensures var q := Next(p, m);
            q.runs == p.runs && q.results == p.results && q.channels == p.channels && p.fed <= q.fed
            && (p.fed <= |p.channels| ==> q.fed <= |q.channels|)
  {
  }

  lemma {:induction false} QuietHistory(p: Pool, q: Pool)
    requires HistoryOk(p) && q.fed <= |q.channels|
    requires q.runs == p.runs && q.results == p.results && q.channels == p.channels && p.fed <= q.fed
    ensures HistoryOk(q)
  {
  }

  lemma {:induction false} RunHistory(p: Pool, q: Pool, job: nat)
    requires HistoryOk(p) && job < p.fed && p.channels[job].Testable? && job !in p.runs
    requires q.runs == p.runs + [job] && q.results == p.results && q.channels == p.channels && q.fed == p.fed
    ensures HistoryOk(q)
  {
    AppendDistinct(p.runs, job);
  }

  lemma {:induction false} LookHistory(p: Pool, w: nat)
    requires HistoryOk(p) && WorkerOk(p, w) && Enabled(p, Look(w))
    ensures HistoryOk(Next(p, Look(w)))
  {
    var q, job := Next(p, Look(w)), p.workers[w].job;
    if p.cancelled {
      QuietHistory(p, q);
    } else if p.channels[job].Testable? {
      RunHistory(p, q, job);
    }
  }

  lemma {:induction false} ReturnHistory(p: Pool, w: nat, result: Summary)
    requires HistoryOk(p) && WorkerOk(p, w) && Enabled(p, RunReturns(w, result))
    ensures HistoryOk(Next(p, RunReturns(w, result)))
  {
  }

  lemma {:induction false} NextHistory(p: Pool, m: Move)
    requires HistoryOk(p) && WorkerOk(p, Mover(m)) && Enabled(p, m)
    ensures HistoryOk(Next(p, m))
  {
    match m
    case Look(w) => LookHistory(p, w);
    case RunReturns(w, result) => ReturnHistory(p, w, result);
    case _ =>
      QuietMove(p, m);
      QuietHistory(p, Next(p, m));
  }

  lemma {:induction false} AppendDistinct(s: seq<nat>, x: nat)
    requires Distinct(s)
    ensures x !in s ==> Distinct(s + [x])
  {
  }

  lemma {:induction false} NextExclusive(p: Pool, m: Move)
    requires Exclusive(p) && Enabled(p, m)
    ensures Exclusive(Next(p, m))
  {
    forall w: nat ensures WorkerOk(Next(p, m), w) {
      NextWorkerOk(p, m, w);
    }
    forall v: nat, w: nat ensures Apart(Next(p, m), v, w) {
      NextApart(p, m, v, w);
    }
    assert WorkerOk(p, Mover(m));
    NextHistory(p, m);
  }

  // --------------------------------------------------------- nothing is lost

  /** `base` plus the results that the first `n` workers are sending. */
  function InTransit(base: Summary, workers: seq<Phase>, n: nat): Summary
    requires n <= |workers|
  {
    if n == 0 then base
    else if workers[n - 1].Sending? then Plus(InTransit(base, workers, n - 1), workers[n - 1].result)
    else InTransit(base, workers, n - 1)
  }

  function Senders(workers: seq<Phase>, n: nat): nat
    requires n <= |workers|
  {
    if n == 0 then 0 else Senders(workers, n - 1) + (if workers[n - 1].Sending? then 1 else 0)
  }

  lemma {:induction false} TransitAdd(base: Summary, workers: seq<Phase>, n: nat, w: nat, phase: Phase)
    requires n <= |workers| && w < |workers| && !workers[w].Sending?
    ensures InTransit(base, workers[w := phase], n)
         == if w < n && phase.Sending? then Plus(InTransit(base, workers, n), phase.result)
            else InTransit(base, workers, n)
  {
    if n > 0 {
      TransitAdd(base, workers, n - 1, w, phase);
    }
  }

  lemma {:induction false} TransitShift(base: Summary, r: Summary, workers: seq<Phase>, n: nat)
    requires n <= |workers|
    ensures InTransit(Plus(base, r), workers, n) == Plus(InTransit(base, workers, n), r)
  {
    if n > 0 {
      TransitShift(base, r, workers, n - 1);
    }
  }

  lemma {:induction false} TransitDrop(base: Summary, workers: seq<Phase>, n: nat, w: nat, phase: Phase)
    requires n <= |workers| && w < |workers| && workers[w].Sending? && !phase.Sending?
    ensures w < n ==> InTransit(Plus(base, workers[w].result), workers[w := phase], n) == InTransit(base, workers, n)
    ensures n <= w ==> InTransit(base, workers[w := phase], n) == InTransit(base, workers, n)
  {
    if n > 0 {
      TransitDrop(base, workers, n - 1, w, phase);
      if w == n - 1 {
        TransitShift(base, workers[w].result, workers[w := phase], n - 1);
      }
    }
  }

  lemma {:induction false} SendersUpdate(workers: seq<Phase>, n: nat, w: nat, phase: Phase)
    requires n <= |workers| && w < |workers|
    ensures Senders(workers[w := phase], n)
         == Senders(workers, n) + (if w < n && phase.Sending? then 1 else 0)
            - (if w < n && workers[w].Sending? then 1 else 0)
  {
    if n > 0 {
      SendersUpdate(workers, n - 1, w, phase);
    }
  }

  lemma {:induction false} NothingInTransit(base: Summary, workers: seq<Phase>, n: nat)
    requires n <= |workers| && forall w :: 0 <= w < |workers| ==> !workers[w].Sending?
    ensures InTransit(base, workers, n) == base
  {
    if n > 0 {
      NothingInTransit(base, workers, n - 1);
    }
  }

  lemma {:induction false} NobodySends(workers: seq<Phase>, n: nat)
    requires n <= |workers| && forall w :: 0 <= w < |workers| ==> !workers[w].Sending?
    ensures Senders(workers, n) == 0
  {
    if n > 0 {
      NobodySends(workers, n - 1);
    }
  }

  /** The sum of the results of the first `n` jobs, and how many of them have one. */
  function Total(results: map<nat, Summary>, n: nat): Summary {
    if n == 0 then Zero
    else if n - 1 in results then Plus(Total(results, n - 1), results[n - 1])
    else Total(results, n - 1)
  }

  function Done(results: map<nat, Summary>, n: nat): nat {
    if n == 0 then 0 else Done(results, n - 1) + (if n - 1 in results then 1 else 0)
  }

  lemma {:induction false} TotalUpdate(results: map<nat, Summary>, n: nat, job: nat, r: Summary)
    requires job !in results
    ensures Total(results[job := r], n) == if job < n then Plus(Total(results, n), r) else Total(results, n)
    ensures Done(results[job := r], n) == Done(results, n) + (if job < n then 1 else 0)
  {
    if n > 0 {
      TotalUpdate(results, n - 1, job, r);
    }
  }

  /** What the reducer has received. */
  function Received(p: Pool): Summary {
    if p.reducer.Folding? then Plus(p.summary, p.reducer.result) else p.summary
  }

  /** Every result is with the reducer or on its way to it. */
  ghost predicate Conserved(p: Pool) {
    && Total(p.results, |p.channels|) == InTransit(Received(p), p.workers, |p.workers|)
    && Done(p.results, |p.channels|) == p.processed + (if p.reducer.Folding? then 1 else 0)
       + Senders(p.workers, |p.workers|)
  }

  lemma {:induction false} NewResultConserved(p: Pool, q: Pool, w: nat, job: nat, result: Summary)
    requires Conserved(p) && w < |p.workers| && !p.workers[w].Sending? && job < |p.channels| && job !in p.results
    requires q == Set(p, w, Sending(job, result)).(results := p.results[job := result])
    ensures Conserved(q)
  {
    TransitAdd(Received(p), p.workers, |p.workers|, w, Sending(job, result));
    SendersUpdate(p.workers, |p.workers|, w, Sending(job, result));
    TotalUpdate(p.results, |p.channels|, job, result);
  }

  lemma {:induction false} QuietConserved(p: Pool, q: Pool, w: nat, phase: Phase)
    requires Conserved(p) && w < |p.workers| && !p.workers[w].Sending? && !phase.Sending?
    requires q.workers == p.workers[w := phase] && q.results == p.results && q.channels == p.channels
    requires q.reducer == p.reducer && q.summary == p.summary && q.processed == p.processed
    ensures Conserved(q)
  {
    TransitAdd(Received(p), p.workers, |p.workers|, w, phase);
    SendersUpdate(p.workers, |p.workers|, w, phase);
  }

  lemma {:induction false} DeliverConserved(p: Pool, w: nat)
    requires Conserved(p) && Enabled(p, Deliver(w))
    ensures Conserved(Next(p, Deliver(w)))
  {
    var phase := if p.pauses then Pausing else Selecting;
    TransitDrop(Received(p), p.workers, |p.workers|, w, phase);
    SendersUpdate(p.workers, |p.workers|, w, phase);
  }

  lemma {:induction false} NextConserved(p: Pool, m: Move)
    requires Conserved(p) && Exclusive(p) && Enabled(p, m)
    ensures Conserved(Next(p, m))
  {
    assert WorkerOk(p, Mover(m));
    match m
    case Feed(w) => QuietConserved(p, Next(p, m), w, Holding(p.fed));
    case WorkerExit(w) => QuietConserved(p, Next(p, m), w, Exited);
    case Resume(w) => QuietConserved(p, Next(p, m), w, Selecting);
    case Look(w) =>
      var job := p.workers[w].job;
      if p.cancelled {
        QuietConserved(p, Next(p, m), w, Exited);
      } else if p.channels[job].Testable? {
        QuietConserved(p, Next(p, m), w, Running(job));
      } else {
        NewResultConserved(p, Next(p, m), w, job, Zero);
      }
    case RunReturns(w, result) => NewResultConserved(p, Next(p, m), w, p.workers[w].job, result);
    case Deliver(w) => DeliverConserved(p, w);
    case _ =>
  }

  // --------------------------------------------------------- order of closing

  /** Nothing is sent after the results are closed, and the reducer returns last. */
  ghost predicate ClosedInOrder(p: Pool) {
    (p.resultsClosed ==> AllExited(p.workers)) && (p.reducer.Returned? ==> p.resultsClosed)
  }

  ghost predicate Served(p: Pool, j: nat) {
    j < p.fed ==> j in p.results || exists w :: 0 <= w < |p.workers| && JobOf(p.workers[w]) == j
  }

  /** Without cancellation nobody leaves early, no job is dropped and every step of the
      progress is reported. */
  ghost predicate Unhurried(p: Pool) {
    !p.cancelled ==>
      && (p.jobsClosed ==> p.fed == |p.channels|)
      && (forall w :: 0 <= w < |p.workers| && p.workers[w].Exited? ==> p.jobsClosed)
      && (forall j :: Served(p, j))
      && |p.reports| == p.processed + 1
      && (forall i :: 0 <= i < |p.reports| ==> p.reports[i] == i)
  }

  lemma {:induction false} NextServed(p: Pool, m: Move, j: nat)
    requires Exclusive(p) && Served(p, j) && Enabled(p, m) && !Next(p, m).cancelled
    ensures Served(Next(p, m), j)
  {
    var q := Next(p, m);
    assert WorkerOk(p, Mover(m));
    if j < p.fed && j !in q.results {
      var w :| 0 <= w < |p.workers| && JobOf(p.workers[w]) == j;
      assert JobOf(q.workers[w]) == j;
    } else if j == p.fed < q.fed {
      assert JobOf(q.workers[Mover(m)]) == j;
    }
  }

  lemma {:induction false} NextUnhurried(p: Pool, m: Move)
    requires Exclusive(p) && Unhurried(p) && Enabled(p, m)
    ensures Unhurried(Next(p, m))
  {
    if !Next(p, m).cancelled {
      forall j: nat ensures Served(Next(p, m), j) {
        assert Served(p, j);
        NextServed(p, m, j);
      }
    }
  }

  /** A test that was started has produced its result or is still running. */
  ghost predicate Accounted(p: Pool, j: nat) {
    j in p.runs ==> j in p.results || exists w :: 0 <= w < |p.workers| && p.workers[w] == Running(j)
  }

  lemma {:induction false} NextAccounted(p: Pool, m: Move, j: nat)
    requires Exclusive(p) && Accounted(p, j) && Enabled(p, m)
    ensures Accounted(Next(p, m), j)
  {
    var q := Next(p, m);
    assert WorkerOk(p, Mover(m));
    if j in p.runs && j !in q.results {
      var w :| 0 <= w < |p.workers| && p.workers[w] == Running(j);
      assert q.workers[w] == Running(j);
    } else if j in q.runs && j !in p.runs {
      assert q.workers[Mover(m)] == Running(j);
    }
  }

  ghost predicate Invariant(p: Pool) {
    p.workers != [] && (forall j :: Accounted(p, j)) && Exclusive(p) && Conserved(p) && ClosedInOrder(p) && Unhurried(p)
  }

  lemma {:induction false} StartInvariant(channels: seq<Channel>, concurrency: int, pauses: bool, cancelled: bool)
    requires channels != []
    ensures Invariant(Start(channels, concurrency, pauses, cancelled))
  {
    var p := Start(channels, concurrency, pauses, cancelled);
    forall w: nat ensures WorkerOk(p, w) {}
    forall v: nat, w: nat ensures Apart(p, v, w) {}
    forall j: nat ensures Served(p, j) && Accounted(p, j) {}
    NothingInTransit(Zero, p.workers, |p.workers|);
    NobodySends(p.workers, |p.workers|);
    StartTotal(|channels|);
    StartDone(|channels|);
  }

  lemma {:induction false} StartTotal(n: nat)
    ensures Total(map[], n) == Zero
  {
    if n > 0 {
      StartTotal(n - 1);
    }
  }

  lemma {:induction false} StartDone(n: nat)
    ensures Done(map[], n) == 0
  {
    if n > 0 {
      StartDone(n - 1);
    }
  }

  lemma {:induction false} NextInvariant(p: Pool, m: Move)
    requires Invariant(p) && Enabled(p, m)
    ensures Invariant(Next(p, m))
  {
    NextExclusive(p, m);
    NextConserved(p, m);
    NextUnhurried(p, m);
    forall j: nat ensures Accounted(Next(p, m), j) {
      assert Accounted(p, j);
      NextAccounted(p, m, j);
    }
  }

  lemma {:induction false} AfterInvariant(p: Pool, moves: seq<Move>)
    requires Invariant(p) && Possible(p, moves)
    ensures Invariant(After(p, moves))
    decreases |moves|
  {
    if moves != [] {
      NextInvariant(p, moves[0]);
      AfterInvariant(Next(p, moves[0]), moves[1..]);
    }
  }

  // ------------------------------------------------------------- termination

  function PhaseWeight(phase: Phase): nat {
    match phase
    case Exited => 0
    case Selecting => 1
    case Pausing => 2
    case Sending(_, _) => 4
    case Running(_) => 5
    case Holding(_) => 6
  }

  function WorkLeft(workers: seq<Phase>, n: nat): nat
    requires n <= |workers|
  {
    if n == 0 then 0 else WorkLeft(workers, n - 1) + PhaseWeight(workers[n - 1])
  }

  lemma {:induction false} WorkLeftUpdate(workers: seq<Phase>, n: nat, w: nat, phase: Phase)
    requires n <= |workers| && w < |workers|
    ensures WorkLeft(workers[w := phase], n)
         == WorkLeft(workers, n) + (if w < n then PhaseWeight(phase) - PhaseWeight(workers[w]) else 0)
  {
    if n > 0 {
      WorkLeftUpdate(workers, n - 1, w, phase);
    }
  }

  /** An upper bound on the moves that are still to come. */
  function Budget(p: Pool): nat
    requires p.fed <= |p.channels|
  {
    6 * (|p.channels| - p.fed) + WorkLeft(p.workers, |p.workers|)
    + (match p.reducer case Receiving => 1 case Folding(_) => 2 case Returned => 0)
    + (if p.jobsClosed then 0 else 1) + (if p.resultsClosed then 0 else 1) + (if p.cancelled then 0 else 1)
  }

  /** What is left besides the work of the workers. */
  function Overhead(p: Pool): int {
    6 * (|p.channels| - p.fed)
    + (match p.reducer case Receiving => 1 case Folding(_) => 2 case Returned => 0)
    + (if p.jobsClosed then 0 else 1) + (if p.resultsClosed then 0 else 1) + (if p.cancelled then 0 else 1)
  }

  /** A worker's move lowers its weight by more than it adds elsewhere. */
  lemma {:induction false} WorkerWeight(p: Pool, m: Move)
    requires p.fed <= |p.channels| && Enabled(p, m) && ByWorker(m)
    ensures var w, q := Mover(m), Next(p, m);
            && q.fed <= |q.channels| && w < |p.workers| == |q.workers| && q.workers == p.workers[w := q.workers[w]]
            && Overhead(q) + PhaseWeight(q.workers[w]) < Overhead(p) + PhaseWeight(p.workers[w])
  {
    match m
    case Feed(w) =>
    case WorkerExit(w) =>
    case Look(w) =>
    case RunReturns(w, _) =>
    case Deliver(w) =>
    case Resume(w) =>
  }

  lemma {:induction false} NextBudget(p: Pool, m: Move)
    requires p.fed <= |p.channels| && Enabled(p, m)
    ensures Next(p, m).fed <= |Next(p, m).channels| && Budget(Next(p, m)) < Budget(p)
  {
    if ByWorker(m) {
      var w, q := Mover(m), Next(p, m);
      WorkerWeight(p, m);
      WorkLeftUpdate(p.workers, |p.workers|, w, q.workers[w]);
      BudgetParts(p);
      BudgetParts(q);
    }
  }

  lemma {:induction false} BudgetParts(p: Pool)
    requires p.fed <= |p.channels|
    ensures Budget(p) == Overhead(p) + WorkLeft(p.workers, |p.workers|)
  {
  }

  lemma {:induction false} RunIsShort(p: Pool, moves: seq<Move>)
    requires p.fed <= |p.channels| && Possible(p, moves)
    ensures |moves| <= Budget(p)
    decreases |moves|
  {
    if moves != [] {
      NextBudget(p, moves[0]);
      RunIsShort(Next(p, moves[0]), moves[1..]);
    }
  }

  lemma {:induction false} StartWork(workers: seq<Phase>, n: nat)
    requires n <= |workers| && forall w :: 0 <= w < |workers| ==> workers[w].Selecting?
    ensures WorkLeft(workers, n) == n
  {
    if n > 0 {
      StartWork(workers, n - 1);
    }
  }

  /** Every run ends: whatever the interleaving, it has at most six moves per channel, one
      per worker and four more. */
  lemma {:induction false} EveryRunEnds(
    channels: seq<Channel>, concurrency: int, pauses: bool, cancelled: bool, moves: seq<Move>)
    requires channels != [] && Possible(Start(channels, concurrency, pauses, cancelled), moves)
    ensures |moves| <= 6 * |channels| + WorkerCount(concurrency, |channels|) + 4
  {
    var p := Start(channels, concurrency, pauses, cancelled);
    StartWork(p.workers, |p.workers|);
    RunIsShort(p, moves);
  }

  // ---------------------------------------------------------------- progress

  /** A move that some goroutine can make, other than cancelling. */
  ghost predicate CanMove(p: Pool) {
    exists m :: m != Cancel && Enabled(p, m)
  }

  lemma {:induction false} BusyWorkerMoves(p: Pool, w: nat)
    requires Invariant(p) && w < |p.workers| && !p.workers[w].Exited?
    ensures CanMove(p)
  {
    assert WorkerOk(p, w);
    match p.workers[w]
    case Selecting =>
      if p.cancelled || p.jobsClosed {
        assert Enabled(p, WorkerExit(w));
      } else if p.fed < |p.channels| {
        assert Enabled(p, Feed(w));
      } else {
        assert Enabled(p, FeederClose);
      }
    case Holding(_) => assert Enabled(p, Look(w));
    case Running(_) => assert Enabled(p, RunReturns(w, Zero));
    case Sending(_, _) =>
      if p.reducer.Folding? {
        assert Enabled(p, Fold);
      } else {
        assert Enabled(p, Deliver(w));
      }
    case Pausing => assert Enabled(p, Resume(w));
  }

  /** The pool never deadlocks: a state without a possible move is a finished one. */
  lemma {:induction false} NeverStuck(p: Pool)
    requires Invariant(p) && !Finished(p)
    ensures CanMove(p)
  {
    if w :| 0 <= w < |p.workers| && !p.workers[w].Exited? {
      BusyWorkerMoves(p, w);
    } else {
      assert AllExited(p.workers) && p.workers[0].Exited?;
      if !p.jobsClosed {
        assert Enabled(p, FeederClose);
      } else if !p.resultsClosed {
        assert Enabled(p, CloseResults);
      } else if p.reducer.Folding? {
        assert Enabled(p, Fold);
      } else {
        assert Enabled(p, Return);
      }
    }
  }

  // ----------------------------------------------------------------- outcome

  /** In every reachable state: no job is with two workers, no job has run twice, once the
      results are closed every worker has left, so that none sends on the closed channel,
      and a state that is not final has a move. */
  lemma {:induction false} PoolIsSafe(
    channels: seq<Channel>, concurrency: int, pauses: bool, cancelled: bool, moves: seq<Move>)
    requires channels != [] && Possible(Start(channels, concurrency, pauses, cancelled), moves)
    ensures var p := After(Start(channels, concurrency, pauses, cancelled), moves);
            && (forall v, w :: 0 <= v < w < |p.workers| && JobOf(p.workers[v]) == JobOf(p.workers[w]) ==>
                    JobOf(p.workers[v]) == -1)
            && Distinct(p.runs)
            && (p.resultsClosed ==> AllExited(p.workers))
            && (!Finished(p) ==> CanMove(p))
  {
    StartInvariant(channels, concurrency, pauses, cancelled);
    AfterInvariant(Start(channels, concurrency, pauses, cancelled), moves);
    var p := After(Start(channels, concurrency, pauses, cancelled), moves);
    forall v, w | 0 <= v < w < |p.workers| && JobOf(p.workers[v]) == JobOf(p.workers[w])
      ensures JobOf(p.workers[v]) == -1
    {
      assert Apart(p, v, w);
    }
    if !Finished(p) {
      NeverStuck(p);
    }
  }

  lemma {:induction false} NextKeepsChannels(p: Pool, m: Move)
    requires Enabled(p, m)
    ensures Next(p, m).channels == p.channels && |Next(p, m).workers| == |p.workers|
  {
    NextWorkers(p, m);
  }

  lemma {:induction false} AfterKeepsChannels(p: Pool, moves: seq<Move>)
    requires Possible(p, moves)
    ensures After(p, moves).channels == p.channels && |After(p, moves).workers| == |p.workers|
    decreases |moves|
  {
    if moves != [] {
      NextKeepsChannels(p, moves[0]);
      AfterKeepsChannels(Next(p, moves[0]), moves[1..]);
    }
  }

  /** The counters of a summary. */
  datatype Counter = Tests | Successes | Failures | Disablings | Enablings

  function Count(c: Counter, r: Summary): int {
    match c
    case Tests => r.tested
    case Successes => r.succeeded
    case Failures => r.failed
    case Disablings => r.disabled
    case Enablings => r.enabled
  }

  /** One counter summed over the results of the first `n` jobs. */
  function SumOf(results: map<nat, Summary>, n: nat, c: Counter): int {
    if n == 0 then 0 else SumOf(results, n - 1, c) + (if n - 1 in results then Count(c, results[n - 1]) else 0)
  }

  /** One counter summed over all that the tests of a run returned. */
  function Returns(moves: seq<Move>, c: Counter): int {
    if moves == [] then 0 else Gain(moves[0], c) + Returns(moves[1..], c)
  }

  function Gain(m: Move, c: Counter): int {
    if m.RunReturns? then Count(c, m.result) else 0
  }

  lemma {:induction false} TotalCounts(results: map<nat, Summary>, n: nat, c: Counter)
    ensures Count(c, Total(results, n)) == SumOf(results, n, c)
  {
    if n > 0 {
      TotalCounts(results, n - 1, c);
    }
  }

  lemma {:induction false} SumUpdate(results: map<nat, Summary>, n: nat, c: Counter, job: nat, r: Summary)
    requires job !in results
    ensures SumOf(results[job := r], n, c) == SumOf(results, n, c) + (if job < n then Count(c, r) else 0)
  {
    if n > 0 {
      SumUpdate(results, n - 1, c, job, r);
    }
  }

  lemma {:induction false} NextSum(p: Pool, m: Move, c: Counter)
    requires Exclusive(p) && Enabled(p, m)
    ensures SumOf(Next(p, m).results, |p.channels|, c) == SumOf(p.results, |p.channels|, c) + Gain(m, c)
  {
    assert WorkerOk(p, Mover(m));
    match m
    case RunReturns(w, result) => SumUpdate(p.results, |p.channels|, c, p.workers[w].job, result);
    case Look(w) =>
      if !p.cancelled && !p.channels[p.workers[w].job].Testable? {
        SumUpdate(p.results, |p.channels|, c, p.workers[w].job, Zero);
      }
    case _ => QuietMove(p, m);
  }

  lemma {:induction false} AfterSum(p: Pool, moves: seq<Move>, c: Counter)
    requires Invariant(p) && Possible(p, moves)
    ensures SumOf(After(p, moves).results, |p.channels|, c) == SumOf(p.results, |p.channels|, c) + Returns(moves, c)
    decreases |moves|
  {
    if moves != [] {
      NextInvariant(p, moves[0]);
      NextSum(p, moves[0], c);
      NextKeepsChannels(p, moves[0]);
      AfterSum(Next(p, moves[0]), moves[1..], c);
    }
  }

  lemma {:induction false} StartSum(n: nat, c: Counter)
    ensures SumOf(map[], n, c) == 0
  {
    if n > 0 {
      StartSum(n - 1, c);
    }
  }

  lemma {:induction false} DoneAll(results: map<nat, Summary>, n: nat)
    requires forall j :: 0 <= j < n ==> j in results
    ensures Done(results, n) == n
  {
    if n > 0 {
      DoneAll(results, n - 1);
    }
  }

  /** When the pool returns, every counter of its summary is the sum of what the tests
      returned, and every test that was started is in it, cancelled or not. Without cancellation every channel
      was processed and exactly the testable ones were run. */
  lemma {:induction false} PoolOutcome(
    channels: seq<Channel>, concurrency: int, pauses: bool, cancelled: bool, moves: seq<Move>)
    requires channels != [] && Possible(Start(channels, concurrency, pauses, cancelled), moves)
    requires After(Start(channels, concurrency, pauses, cancelled), moves).reducer.Returned?
    ensures var p := After(Start(channels, concurrency, pauses, cancelled), moves);
            && (forall c :: Count(c, p.summary) == SumOf(p.results, |channels|, c) == Returns(moves, c))
            && p.processed == Done(p.results, |channels|)
            && (forall j :: j in p.runs ==> j in p.results)
            && (!p.cancelled ==>
                 && p.processed == |channels|
                 && (forall j :: 0 <= j < |channels| ==> j in p.results && (j in p.runs <==> channels[j].Testable?))
                 && p.reports == seq(|channels| + 1, i => i))
  {
    var p0 := Start(channels, concurrency, pauses, cancelled);
    var p := After(p0, moves);
    StartInvariant(channels, concurrency, pauses, cancelled);
    AfterInvariant(p0, moves);
    AfterKeepsChannels(p0, moves);
    NothingInTransit(p.summary, p.workers, |p.workers|);
    NobodySends(p.workers, |p.workers|);
    forall c ensures Count(c, p.summary) == SumOf(p.results, |channels|, c) == Returns(moves, c) {
      TotalCounts(p.results, |channels|, c);
      AfterSum(p0, moves, c);
      StartSum(|channels|, c);
    }
    forall j | j in p.runs ensures j in p.results {
      assert Accounted(p, j);
    }
    if !p.cancelled {
      assert p.workers[0].Exited?;
      forall j | 0 <= j < |channels| ensures j in p.results {
        assert Served(p, j);
      }
      DoneAll(p.results, |channels|);
    }
  }

  // ------------------------------------------------- concurrency and stopping

  /** So many workers are within the maximum, the concurrency and the number of channels. */
  predicate Allowed(concurrency: int, total: nat, n: int) {
    n <= 32 && n <= total && (n <= 1 || n <= concurrency)
  }

  /** The most workers that the configured concurrency, the maximum and the number of
      channels allow; a concurrency below one counts as one. */
  lemma WorkersExactly(concurrency: int, total: nat)
    requires total > 0
    ensures var n := WorkerCount(concurrency, total);
            1 <= n && Allowed(concurrency, total, n) && forall m :: Allowed(concurrency, total, m) ==> m <= n
  {
  }

  function Busy(p: Pool): set<nat> {
    set w: nat | w < |p.workers| && p.workers[w].Running?
  }

  lemma {:induction false} FewBelow(s: set<nat>, n: nat)
    requires forall x :: x in s ==> x < n
    ensures |s| <= n
  {
    if n > 0 {
      FewBelow(s - {n - 1}, n - 1);
    }
  }

  /** At no moment are more tests running than the concurrency allows, and never two of the
      same channel. */
  lemma {:induction false} ConcurrencyIsBounded(
    channels: seq<Channel>, concurrency: int, pauses: bool, cancelled: bool, moves: seq<Move>)
    requires channels != [] && Possible(Start(channels, concurrency, pauses, cancelled), moves)
    ensures var busy := Busy(After(Start(channels, concurrency, pauses, cancelled), moves));
            Allowed(concurrency, |channels|, |busy|)
  {
    var p0 := Start(channels, concurrency, pauses, cancelled);
    AfterKeepsChannels(p0, moves);
    FewBelow(Busy(After(p0, moves)), |p0.workers|);
  }

  /** Once cancelled, a pool starts no test and reports no progress. */
  lemma {:induction false} CancelStops(p: Pool, moves: seq<Move>)
    requires p.cancelled && Possible(p, moves)
    ensures var q := After(p, moves); q.cancelled && q.runs == p.runs && q.reports == p.reports
    decreases |moves|
  {
    if moves != [] {
      NextStops(p, moves[0]);
      CancelStops(Next(p, moves[0]), moves[1..]);
    }
  }

  lemma {:induction false} NextStops(p: Pool, m: Move)
    requires p.cancelled && Enabled(p, m)
    ensures var q := Next(p, m); q.cancelled && q.runs == p.runs && q.reports == p.reports
  {
  }

  /** How often a worker was given a job, and how often it came back from a pause. */
  function Fed(moves: seq<Move>, w: nat): nat {
    if moves == [] then 0 else Fed(moves[1..], w) + (if moves[0] == Feed(w) then 1 else 0)
  }

  function Resumed(moves: seq<Move>, w: nat): nat {
    if moves == [] then 0 else Resumed(moves[1..], w) + (if moves[0] == Resume(w) then 1 else 0)
  }

  predicate Idle(p: Pool, w: nat) {
    w < |p.workers| && p.workers[w].Selecting?
  }

  /** With a request interval a worker pauses between any two jobs, and without one nobody
      does. */
  lemma {:induction false} PausesBetweenJobs(p: Pool, moves: seq<Move>, w: nat)
    requires Possible(p, moves) && w < |p.workers|
    ensures p.pauses ==> Fed(moves, w) <= Resumed(moves, w) + (if Idle(p, w) then 1 else 0)
    ensures !p.pauses && !p.workers[w].Pausing? ==> Resumed(moves, w) == 0
    decreases |moves|
  {
    if moves != [] {
      NextPause(p, moves[0], w);
      PausesBetweenJobs(Next(p, moves[0]), moves[1..], w);
    }
  }

  lemma {:induction false} NextPause(p: Pool, m: Move, w: nat)
    requires Enabled(p, m) && w < |p.workers|
    ensures var q := Next(p, m);
            && w < |q.workers| && q.pauses == p.pauses
            && (p.pauses && Idle(q, w) ==> Idle(p, w) || m == Resume(w))
            && (m == Feed(w) ==> Idle(p, w) && !Idle(q, w))
            && (!p.pauses && !p.workers[w].Pausing? ==> !q.workers[w].Pausing? && m != Resume(w))
  {
    NextWorkers(p, m);
  }
}
