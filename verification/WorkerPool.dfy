/** The parallel HTTP download (pkg/client/fallback.go, downloadParallel) as a
    step relation: workers take jobs from a closed channel, try each up to three
    times, write into disjoint regions of one file, count their progress and
    report the first error that stops them.  Every schedule is a run. */
module WorkerPool {
  import opened Wrappers
  import opened Protocol
  import opened HttpFetch

  datatype Config = Config(size: nat, chunkSize: nat, count: nat, workers: nat) {
    /** The metadata's own widths: chunk size and count are 32-bit numbers. */
    predicate Widths() { chunkSize < U32 && count < U32 }

    /** Metadata as the chunker makes it: the count is the ceiling. */
    predicate Valid() {
      Widths() && 0 < chunkSize && size < I64 && Covers(size, chunkSize, count)
    }
  }

  datatype Worker =
    | Ready
    | Took(job: nat)
    | Trying(job: nat, attempt: nat)
    | Fetched(job: nat)
    | Reporting(job: nat)      // has an error to send to errChan
    | Drained                  // found the channel empty and returned
    | Failed(job: nat)         // sent its error and returned

  /** `next` is the first job still in the channel; `completed` logs the jobs
      counted as downloaded. */
  datatype Pool = Pool(next: nat, workers: seq<Worker>, errs: nat, file: Bytes, completed: seq<nat>, downloaded: nat)

  datatype Action =
    | Take(w: nat)
    | Exit(w: nat)
    | SeeCancel(w: nat)              // ctx.Done right after taking a job
    | Begin(w: nat)
    | Try(w: nat, a: Attempt)
    | CancelRetry(w: nat)            // ctx.Done during the pause before a retry
    | CountDone(w: nat)
    | Report(w: nat)

  /** uint64 arithmetic of the job's region and range header. */
  function JobOffset(c: Config, job: nat): nat { (job * c.chunkSize) % U64 }

  function RangeLast(c: Config, job: nat): int { (JobOffset(c, job) + c.chunkSize - 1) % U64 }

  predicate Enabled(c: Config, s: Pool, a: Action) {
    a.w < |s.workers| &&
    var k := s.workers[a.w];
    match a
    case Take(_) => k.Ready? && s.next < c.count
    case Exit(_) => k.Ready? && s.next >= c.count
    case SeeCancel(_) => k.Took?
    case Begin(_) => k.Took?
    case Try(_, _) => k.Trying?
    case CancelRetry(_) => k.Trying? && k.attempt > 0
    case CountDone(_) => k.Fetched?
    case Report(_) => k.Reporting? && s.errs < c.workers   // errChan has one slot per worker
  }

  function AfterTry(c: Config, s: Pool, w: nat, a: Attempt): Pool
    requires w < |s.workers| && s.workers[w].Trying?
  {
    var k := s.workers[w];
    var (file, ok) := AttemptEffect(s.file, JobOffset(c, k.job), c.chunkSize, a);
    s.(file := file, workers := s.workers[w :=
      if ok then Fetched(k.job)
      else if k.attempt + 1 < MAX_RETRIES then Trying(k.job, k.attempt + 1)
      else Reporting(k.job)])
  }

  function Next(c: Config, s: Pool, a: Action): Pool
    requires Enabled(c, s, a)
  {
    var k := s.workers[a.w];
    match a
    case Take(w) => s.(next := s.next + 1, workers := s.workers[w := Took(s.next)])
    case Exit(w) => s.(workers := s.workers[w := Drained])
    case SeeCancel(w) => s.(workers := s.workers[w := Reporting(k.job)])
    case Begin(w) => s.(workers := s.workers[w := Trying(k.job, 0)])
    case Try(w, t) => AfterTry(c, s, w, t)
    case CancelRetry(w) => s.(workers := s.workers[w := Reporting(k.job)])
    case CountDone(w) =>
      s.(workers := s.workers[w := Ready], completed := s.completed + [k.job], downloaded := (s.downloaded + c.chunkSize) % U64)
    case Report(w) => s.(workers := s.workers[w := Failed(k.job)], errs := s.errs + 1)
  }

  /** The file is truncated to its final size before the workers start. */
  function Start(c: Config): Pool {
    Pool(0, seq(c.workers, _ => Ready), 0, Zeros(c.size), [], 0)
  }

  function Run(c: Config, s: Pool, actions: seq<Action>): Option<Pool>
    decreases |actions|
  {
    if actions == [] then Some(s)
    else if Enabled(c, s, actions[0]) then Run(c, Next(c, s, actions[0]), actions[1..])
    else None
  }

  lemma RunOne(c: Config, s: Pool, actions: seq<Action>, i: nat)
    requires i < |actions|
    ensures Run(c, s, actions[i..]) ==
            if Enabled(c, s, actions[i]) then Run(c, Next(c, s, actions[i]), actions[i + 1..]) else None
  {
  }

  /** wg.Wait returns: every worker has returned. */
  predicate Finished(s: Pool) {
    forall w :: 0 <= w < |s.workers| ==> s.workers[w].Drained? || s.workers[w].Failed?
  }

  // --------------------------------------------------------------- termination

  function Rank(k: Worker): nat {
    match k
    case Ready => 1
    case Took(_) => MAX_RETRIES + 4
    case Trying(_, a) => 3 + (if a < MAX_RETRIES then MAX_RETRIES - a else 0)
    case Fetched(_) => 2
    case Reporting(_) => 1
    case Drained => 0
    case Failed(_) => 0
  }

  function IsFailed(k: Worker): nat { if k.Failed? then 1 else 0 }

  function Total(ws: seq<Worker>, f: Worker -> nat): nat {
    if ws == [] then 0 else Total(ws[..|ws| - 1], f) + f(ws[|ws| - 1])
  }

  lemma {:induction false} TotalUpdate(ws: seq<Worker>, f: Worker -> nat, w: nat, k: Worker)
    requires w < |ws|
    ensures Total(ws[w := k], f) == Total(ws, f) - f(ws[w]) + f(k)
    decreases |ws|
  {
    var n := |ws| - 1;
    if w < n {
      TotalUpdate(ws[..n], f, w, k);
      assert ws[w := k][..n] == ws[..n][w := k];
    } else {
      assert ws[w := k][..n] == ws[..n];
    }
  }

  const JOB_WEIGHT := MAX_RETRIES + 4

  /** Jobs left, attempts left and workers alive, in one number. */
  function Measure(c: Config, s: Pool): int { (c.count - s.next) * JOB_WEIGHT + Total(s.workers, Rank) }

  lemma StepDecreases(c: Config, s: Pool, a: Action)
    requires s.next <= c.count && Enabled(c, s, a)
    requires s.workers[a.w].Trying? ==> s.workers[a.w].attempt < MAX_RETRIES
    ensures 0 <= Measure(c, Next(c, s, a)) < Measure(c, s)
  {
    var t := Next(c, s, a);
    TotalUpdate(s.workers, Rank, a.w, t.workers[a.w]);
    assert t.workers == s.workers[a.w := t.workers[a.w]];
  }

  // ----------------------------------------------------------------- invariant

  function Holding(k: Worker): Option<nat> {
    match k
    case Took(j) => Some(j)
    case Trying(j, _) => Some(j)
    case Fetched(j) => Some(j)
    case Reporting(j) => Some(j)
    case Failed(j) => Some(j)
    case _ => None
  }

  predicate Held(s: Pool, job: nat) {
    exists w :: 0 <= w < |s.workers| && Holding(s.workers[w]) == Some(job)
  }

  /** No job is held twice, and none that is held has been counted. */
  predicate HoldersOk(s: Pool) { HoldersFresh(s) && HoldersApart(s) }

  predicate HoldersFresh(s: Pool) {
    forall w :: 0 <= w < |s.workers| && Holding(s.workers[w]).Some? ==>
      Holding(s.workers[w]).value < s.next && Holding(s.workers[w]).value !in s.completed
  }

  predicate HoldersApart(s: Pool) {
    forall v, w :: 0 <= v < w < |s.workers| && Holding(s.workers[v]).Some? ==> Holding(s.workers[v]) != Holding(s.workers[w])
  }

  predicate WorkersOk(c: Config, s: Pool) {
    && (forall w :: 0 <= w < |s.workers| && s.workers[w].Trying? ==> s.workers[w].attempt < MAX_RETRIES)
    && (forall w :: 0 <= w < |s.workers| && s.workers[w].Drained? ==> s.next == c.count)
  }

  predicate LogOk(s: Pool) {
    && (forall i :: 0 <= i < |s.completed| ==> s.completed[i] < s.next)
    && (forall i, j :: 0 <= i < j < |s.completed| ==> s.completed[i] != s.completed[j])
    && (forall j :: 0 <= j < s.next ==> j in s.completed || Held(s, j))
  }

  predicate Inv(c: Config, s: Pool) {
    && s.next <= c.count && |s.workers| == c.workers
    && HoldersOk(s) && WorkersOk(c, s) && LogOk(s)
    && s.errs == Total(s.workers, IsFailed)
    && s.downloaded == Offset(|s.completed|, c.chunkSize)
  }

  lemma {:induction false} TotalOfUniform(ws: seq<Worker>, f: Worker -> nat, v: nat)
    requires forall w :: 0 <= w < |ws| ==> f(ws[w]) == v
    ensures Total(ws, f) == Offset(|ws|, v)
    decreases |ws|
  {
    if ws != [] {
      TotalOfUniform(ws[..|ws| - 1], f, v);
      assert f(ws[|ws| - 1]) == v;
    }
  }

  lemma {:induction false} ZeroOffset(n: nat)
    ensures Offset(n, 0) == 0 && Offset(n, 1) == n
    decreases n
  {
    if n > 0 { ZeroOffset(n - 1); }
  }

  lemma StartInv(c: Config)
    ensures Inv(c, Start(c))
    ensures Measure(c, Start(c)) == c.count * JOB_WEIGHT + c.workers
  {
    var s := Start(c);
    TotalOfUniform(s.workers, IsFailed, 0);
    TotalOfUniform(s.workers, Rank, 1);
    ZeroOffset(c.workers);
  }

  /** A log without repetition of numbers below `n` has at most `n` entries. */
  lemma LogFits(log: seq<nat>, n: nat)
    requires forall i :: 0 <= i < |log| ==> log[i] < n
    requires forall i, j :: 0 <= i < j < |log| ==> log[i] != log[j]
    ensures |log| <= n
  {
    var s := set i | 0 <= i < |log| :: log[i];
    DistinctSize(log);
    NatsBelow(s, n);
  }

  lemma {:induction false} DistinctSize(log: seq<nat>)
    requires forall i, j :: 0 <= i < j < |log| ==> log[i] != log[j]
    ensures |set i | 0 <= i < |log| :: log[i]| == |log|
    decreases |log|
  {
    if log != [] {
      var n := |log| - 1;
      DistinctSize(log[..n]);
      var all, init := (set i | 0 <= i < |log| :: log[i]), (set i | 0 <= i < n :: log[..n][i]);
      assert all == init + {log[n]};
      assert log[n] !in init;
    }
  }

  lemma {:induction false} NatsBelow(s: set<nat>, n: nat)
    requires forall x :: x in s ==> x < n
    ensures |s| <= n
    decreases n
  {
    if n == 0 { assert s == {}; } else { NatsBelow(s - {n - 1}, n - 1); }
  }

  /** Whatever the count, one more chunk never makes the 64-bit counter wrap:
      count and chunk size have 32 bits each. */
  lemma ProgressFits(c: Config, s: Pool)
    requires c.Widths() && Inv(c, s)
    ensures s.downloaded + c.chunkSize < U64
  {
    LogFits(s.completed, c.count);
    OffsetMonotone(|s.completed|, U32, c.chunkSize);
    OffsetIsProduct(U32, c.chunkSize);
  }

  /** Progress in bytes never exceeds the file by a whole chunk. */
  lemma DownloadedBound(c: Config, s: Pool)
    requires c.Valid() && Inv(c, s)
    ensures c.size == 0 ==> s.downloaded == 0
    ensures c.size > 0 ==> s.downloaded < c.size + c.chunkSize
  {
    LogFits(s.completed, c.count);
    if |s.completed| < c.count { OffsetMonotone(|s.completed|, c.count, c.chunkSize); }
  }

  /** What a step leaves in a worker's hands. */
  lemma StepHolds(c: Config, s: Pool, a: Action)
    requires Enabled(c, s, a)
    ensures var t := Next(c, s, a);
      && |t.workers| == |s.workers|
      && (forall w :: 0 <= w < |s.workers| && w != a.w ==> t.workers[w] == s.workers[w])
      && Holding(t.workers[a.w]) ==
           (if a.Take? then Some(s.next) else if a.CountDone? then None else Holding(s.workers[a.w]))
      && t.next == (if a.Take? then s.next + 1 else s.next)
      && t.completed == (if a.CountDone? then s.completed + [s.workers[a.w].job] else s.completed)
      && (a.CountDone? ==> Holding(s.workers[a.w]) == Some(s.workers[a.w].job))
  {
  }

  lemma StepKeepsHoldersFresh(c: Config, s: Pool, a: Action)
    requires LogOk(s) && HoldersOk(s) && Enabled(c, s, a)
    ensures HoldersFresh(Next(c, s, a))
  {
    StepHolds(c, s, a);
    var t := Next(c, s, a);
    forall w | 0 <= w < |t.workers| && Holding(t.workers[w]).Some?
      ensures Holding(t.workers[w]).value < t.next && Holding(t.workers[w]).value !in t.completed
    {
      if w != a.w { assert Holding(s.workers[w]) == Holding(t.workers[w]); }
    }
  }

  lemma StepKeepsHolders(c: Config, s: Pool, a: Action)
    requires LogOk(s) && HoldersOk(s) && Enabled(c, s, a)
    ensures HoldersOk(Next(c, s, a))
  {
    StepKeepsHoldersFresh(c, s, a);
    StepHolds(c, s, a);
  }

  lemma StepKeepsWorkers(c: Config, s: Pool, a: Action)
    requires s.next <= c.count && WorkersOk(c, s) && Enabled(c, s, a)
    ensures WorkersOk(c, Next(c, s, a)) && Next(c, s, a).next <= c.count
    ensures Next(c, s, a).workers == s.workers[a.w := Next(c, s, a).workers[a.w]]
    ensures IsFailed(Next(c, s, a).workers[a.w]) == IsFailed(s.workers[a.w]) + (if a.Report? then 1 else 0)
  {
  }

  lemma StepKeepsLog(c: Config, s: Pool, a: Action)
    requires Inv(c, s) && Enabled(c, s, a)
    ensures LogOk(Next(c, s, a))
  {
    var t := Next(c, s, a);
    forall j | 0 <= j < t.next ensures j in t.completed || Held(t, j) {
      if j == s.next {
        assert Holding(t.workers[a.w]) == Some(j);
      } else if j in s.completed {
        assert j in t.completed;
      } else {
        var w :| 0 <= w < |s.workers| && Holding(s.workers[w]) == Some(j);
        if w != a.w { assert Holding(t.workers[w]) == Some(j); }
        else if a.CountDone? { assert t.completed[|s.completed|] == j; }
        else { assert Holding(t.workers[w]) == Some(j); }
      }
    }
  }

  lemma StepKeepsInv(c: Config, s: Pool, a: Action)
    requires c.Widths() && Inv(c, s) && Enabled(c, s, a)
    ensures Inv(c, Next(c, s, a))
  {
    StepKeepsWorkers(c, s, a);
    StepKeepsHolders(c, s, a);
    StepKeepsLog(c, s, a);
    StepKeepsCounts(c, s, a);
  }

  lemma StepKeepsCounts(c: Config, s: Pool, a: Action)
    requires c.Widths() && Inv(c, s) && Enabled(c, s, a)
    ensures Next(c, s, a).errs == Total(Next(c, s, a).workers, IsFailed)
    ensures Next(c, s, a).downloaded == Offset(|Next(c, s, a).completed|, c.chunkSize)
  {
    StepKeepsWorkers(c, s, a);
    TotalUpdate(s.workers, IsFailed, a.w, Next(c, s, a).workers[a.w]);
    if a.CountDone? {
      ProgressFits(c, s);
      SmallMod(s.downloaded + c.chunkSize, U64);
    }
  }

  lemma {:induction false} RunKeepsInv(c: Config, s: Pool, actions: seq<Action>)
    requires c.Widths() && Inv(c, s) && Run(c, s, actions).Some?
    ensures Inv(c, Run(c, s, actions).value)
    ensures 0 <= Measure(c, Run(c, s, actions).value) <= Measure(c, s) - |actions|
    decreases |actions|
  {
    if actions != [] {
      StepKeepsInv(c, s, actions[0]);
      StepDecreases(c, s, actions[0]);
      RunKeepsInv(c, Next(c, s, actions[0]), actions[1..]);
    } else {
      MeasureNonNegative(c, s);
    }
  }

  lemma MeasureNonNegative(c: Config, s: Pool)
    requires s.next <= c.count
    ensures Measure(c, s) >= 0
  {
  }

  // ------------------------------------------------- theorems on every schedule

  /** No schedule is longer than the jobs, attempts and workers allow, whatever
      the network does. */
  lemma SchedulesAreBounded(c: Config, actions: seq<Action>)
    requires c.Widths() && Run(c, Start(c), actions).Some?
    ensures |actions| <= c.count * JOB_WEIGHT + c.workers
  {
    StartInv(c);
    RunKeepsInv(c, Start(c), actions);
  }

  lemma {:induction false} TotalBelow(ws: seq<Worker>, w: nat)
    requires w < |ws| && !ws[w].Failed?
    ensures Total(ws, IsFailed) < |ws|
    decreases |ws|
  {
    var n := |ws| - 1;
    if w < n { TotalBelow(ws[..n], w); } else { TotalAtMost(ws[..n]); }
  }

  lemma {:induction false} TotalAtMost(ws: seq<Worker>)
    ensures Total(ws, IsFailed) <= |ws|
    decreases |ws|
  {
    if ws != [] { TotalAtMost(ws[..|ws| - 1]); }
  }

  /** A step that worker `w` can take. */
  function SomeStep(c: Config, s: Pool, w: nat): Action
    requires w < |s.workers|
  {
    match s.workers[w]
    case Ready => if s.next < c.count then Take(w) else Exit(w)
    case Took(_) => Begin(w)
    case Trying(_, _) => Try(w, Attempt(ConnectionError, None))
    case Fetched(_) => CountDone(w)
    case _ => Report(w)
  }

  /** Nobody ever blocks: in every reachable state each worker that has not
      returned has an enabled step, sending an error included.  With the bound
      above, every schedule reaches wg.Wait. */
  lemma NoWorkerBlocks(c: Config, actions: seq<Action>, w: nat)
    requires c.Widths() && Run(c, Start(c), actions).Some?
    requires var s := Run(c, Start(c), actions).value;
      w < |s.workers| && !s.workers[w].Drained? && !s.workers[w].Failed?
    ensures var s := Run(c, Start(c), actions).value;
      Enabled(c, s, SomeStep(c, s, w))
    ensures var s := Run(c, Start(c), actions).value;
      s.workers[w].Reporting? ==> Enabled(c, s, Report(w))
  {
    StartInv(c);
    RunKeepsInv(c, Start(c), actions);
    TotalBelow(Run(c, Start(c), actions).value.workers, w);
  }

  /** Every job was taken, completed and counted exactly once. */
  predicate AllDoneOnce(c: Config, s: Pool) {
    && |s.completed| == c.count
    && (forall j :: 0 <= j < c.count ==> j in s.completed)
    && (forall i, j :: 0 <= i < j < |s.completed| ==> s.completed[i] != s.completed[j])
  }

  lemma {:induction false} TotalPositive(ws: seq<Worker>)
    ensures Total(ws, IsFailed) > 0 <==> exists w :: 0 <= w < |ws| && ws[w].Failed?
    decreases |ws|
  {
    if ws != [] {
      var n := |ws| - 1;
      TotalPositive(ws[..n]);
      if w :| 0 <= w < n && ws[w].Failed? { assert ws[..n][w].Failed?; }
      if w :| 0 <= w < n && ws[..n][w].Failed? { assert ws[w].Failed?; }
    }
  }

  lemma CoveringLogIsFull(log: seq<nat>, n: nat)
    requires forall i :: 0 <= i < |log| ==> log[i] < n
    requires forall i, j :: 0 <= i < j < |log| ==> log[i] != log[j]
    requires forall j :: 0 <= j < n ==> j in log
    ensures |log| == n
  {
    LogFits(log, n);
    var s := set i | 0 <= i < |log| :: log[i];
    DistinctSize(log);
    forall j | 0 <= j < n ensures j in s {
      assert j in log;
    }
    NatsAtLeast(s, n);
  }

  lemma {:induction false} NatsAtLeast(s: set<nat>, n: nat)
    requires forall j :: 0 <= j < n ==> j in s
    ensures |s| >= n
    decreases n
  {
    if n > 0 {
      var r := s - {n - 1};
      NatsAtLeast(r, n - 1);
      assert s == r + {n - 1};
    }
  }

  /** The result is nil (no error in errChan) exactly when every job was done
      exactly once, provided there is a worker or nothing to do. */
  lemma NilIffAllDoneOnce(c: Config, actions: seq<Action>)
    requires c.Widths() && Run(c, Start(c), actions).Some? && Finished(Run(c, Start(c), actions).value)
    ensures var s := Run(c, Start(c), actions).value;
      c.workers > 0 || c.count == 0 ==> (s.errs == 0 <==> AllDoneOnce(c, s))
    ensures var s := Run(c, Start(c), actions).value;
      c.workers == 0 ==> s.errs == 0 && s.completed == []
  {
    StartInv(c);
    RunKeepsInv(c, Start(c), actions);
    var s := Run(c, Start(c), actions).value;
    TotalPositive(s.workers);
    if c.workers == 0 {
      NoWorkersNoSteps(c, actions);
    } else if s.errs == 0 {
      assert s.workers[0].Drained?;
      forall j | 0 <= j < c.count ensures j in s.completed {
        assert j in s.completed || Held(s, j);
      }
      CoveringLogIsFull(s.completed, c.count);
    } else {
      var w :| 0 <= w < |s.workers| && s.workers[w].Failed?;
      assert Holding(s.workers[w]) == Some(s.workers[w].job);
    }
  }

  lemma NoWorkersNoSteps(c: Config, actions: seq<Action>)
    requires c.workers == 0 && Run(c, Start(c), actions).Some?
    ensures actions == []
  {
  }

  // ------------------------------------------------------------ what makes errors

  /** A worker gives its job up: a cancellation, or a third attempt that is not
      good. */
  predicate GivesUp(c: Config, s: Pool, a: Action) {
    || a.SeeCancel? || a.CancelRetry?
    || (a.Try? && a.w < |s.workers| && s.workers[a.w].Trying? && s.workers[a.w].attempt == 2
        && !Good(a.a, JobOffset(c, s.workers[a.w].job), c.chunkSize))
  }

  function GiveUps(c: Config, s: Pool, actions: seq<Action>): nat
    decreases |actions|
  {
    if actions == [] || !Enabled(c, s, actions[0]) then 0
    else (if GivesUp(c, s, actions[0]) then 1 else 0) + GiveUps(c, Next(c, s, actions[0]), actions[1..])
  }

  function IsReporting(k: Worker): nat { if k.Reporting? then 1 else 0 }

  lemma GiveUpStep(c: Config, s: Pool, a: Action)
    requires Enabled(c, s, a) && WorkersOk(c, s)
    ensures var t := Next(c, s, a);
      && t.workers == s.workers[a.w := t.workers[a.w]]
      && t.errs + IsReporting(t.workers[a.w]) == s.errs + IsReporting(s.workers[a.w]) + (if GivesUp(c, s, a) then 1 else 0)
  {
    if a.Try? { GoodAttempt(s.file, JobOffset(c, s.workers[a.w].job), c.chunkSize, a.a); }
  }

  lemma {:induction false} RunCountsGiveUps(c: Config, s: Pool, actions: seq<Action>)
    requires c.Widths() && Inv(c, s) && Run(c, s, actions).Some?
    ensures var t := Run(c, s, actions).value;
      t.errs + Total(t.workers, IsReporting) == s.errs + Total(s.workers, IsReporting) + GiveUps(c, s, actions)
    decreases |actions|
  {
    if actions != [] {
      var a := actions[0];
      StepKeepsInv(c, s, a);
      GiveUpStep(c, s, a);
      TotalUpdate(s.workers, IsReporting, a.w, Next(c, s, a).workers[a.w]);
      RunCountsGiveUps(c, Next(c, s, a), actions[1..]);
    }
  }

  /** The errors of every finished schedule, exactly: one for each job that was
      given up.  So the result is nil if and only if nothing was cancelled and
      every job had a good answer among its first three. */
  lemma {:induction false} ErrorsAreGiveUps(c: Config, actions: seq<Action>)
    requires c.Widths() && Run(c, Start(c), actions).Some? && Finished(Run(c, Start(c), actions).value)
    ensures Run(c, Start(c), actions).value.errs == GiveUps(c, Start(c), actions)
  {
    StartInv(c);
    RunCountsGiveUps(c, Start(c), actions);
    TotalOfUniform(Start(c).workers, IsReporting, 0);
    TotalOfUniform(Run(c, Start(c), actions).value.workers, IsReporting, 0);
    ZeroOffset(c.workers);
    ZeroOffset(|Run(c, Start(c), actions).value.workers|);
  }

  // ------------------------------------------------------------------ contents

  /** The regions of the jobs are disjoint and cover the file: each byte belongs
      to exactly one of them. */
  lemma RegionsPartition(c: Config, x: nat, j: nat)
    requires c.Valid() && x < c.size
    ensures x / c.chunkSize < c.count
    ensures j < c.count ==> (Offset(j, c.chunkSize) <= x < Offset(j, c.chunkSize) + c.chunkSize <==> j == x / c.chunkSize)
  {
    var q := x / c.chunkSize;
    OffsetIsProduct(q, c.chunkSize);
    assert x == q * c.chunkSize + x % c.chunkSize;
    assert Offset(q, c.chunkSize) <= x < Offset(q, c.chunkSize) + c.chunkSize;
    if j < q { OffsetMonotone(j, q, c.chunkSize); }
    if q < j { OffsetMonotone(q, j, c.chunkSize); }
    if c.count <= q {
      if c.count < q { OffsetMonotone(c.count, q, c.chunkSize); }
    }
  }

  /** The 64-bit arithmetic of offsets and range headers never wraps: a job
      starts inside the file, below the int64 limit of WriteAt. */
  lemma JobArithmeticIsExact(c: Config, job: nat)
    requires c.Valid() && job < c.count
    ensures JobOffset(c, job) == job * c.chunkSize == Offset(job, c.chunkSize) < c.size < I64
    ensures RangeLast(c, job) == job * c.chunkSize + c.chunkSize - 1
  {
    OffsetIsProduct(job, c.chunkSize);
    if job < c.count - 1 { OffsetMonotone(job, c.count - 1, c.chunkSize); }
    SmallMod(job * c.chunkSize, U64);
    SmallMod(Offset(job, c.chunkSize) + c.chunkSize - 1, U64);
  }

  /** Every response in the schedule comes from an origin that honours the range
      header of the job it answers. */
  predicate HonestStep(c: Config, s: Pool, origin: Bytes, a: Action) {
    a.Try? && a.w < |s.workers| && s.workers[a.w].Trying? ==>
      var job := s.workers[a.w].job;
      RangeLast(c, job) >= 0 && HonoursRange(a.a.response, origin, JobOffset(c, job), RangeLast(c, job))
  }

  predicate HonestRun(c: Config, s: Pool, origin: Bytes, actions: seq<Action>)
    decreases |actions|
  {
    actions != [] && Enabled(c, s, actions[0]) ==>
      HonestStep(c, s, origin, actions[0]) && HonestRun(c, Next(c, s, actions[0]), origin, actions[1..])
  }

  predicate RegionDone(c: Config, file: Bytes, origin: Bytes, j: nat) {
    && |file| == |origin|
    && forall x :: Offset(j, c.chunkSize) <= x < Offset(j, c.chunkSize) + c.chunkSize && x < |origin| ==> file[x] == origin[x]
  }

  predicate ContentInv(c: Config, s: Pool, origin: Bytes) {
    && |s.file| == |origin|
    && (forall j :: j in s.completed ==> RegionDone(c, s.file, origin, j))
    && (forall w :: 0 <= w < |s.workers| && s.workers[w].Fetched? ==> RegionDone(c, s.file, origin, s.workers[w].job))
  }

  lemma OriginWrite(file: Bytes, origin: Bytes, off: nat, data: Bytes)
    requires |file| == |origin| && off <= |origin| && data <= origin[off..]
    ensures var f := Overwritten(file, off, data);
      && |f| == |origin|
      && (forall x :: 0 <= x < |origin| ==> f[x] == if off <= x < off + |data| then origin[x] else file[x])
  {
  }

  /** An honest attempt writes only bytes of the origin, at their place; when it
      succeeds the whole region is right. */
  lemma {:induction false} HonestAttempt(c: Config, file: Bytes, origin: Bytes, job: nat, a: Attempt)
    requires c.Valid() && job < c.count && |file| == |origin| == c.size
    requires RangeLast(c, job) >= 0 && HonoursRange(a.response, origin, JobOffset(c, job), RangeLast(c, job))
    ensures var (f, ok) := AttemptEffect(file, JobOffset(c, job), c.chunkSize, a);
      && |f| == |origin|
      && (forall x :: 0 <= x < |origin| ==> f[x] == file[x] || f[x] == origin[x])
      && (ok ==> RegionDone(c, f, origin, job))
  {
    JobArithmeticIsExact(c, job);
    var off := Offset(job, c.chunkSize);
    HonestAcceptance(a.response, origin, off, c.chunkSize);
    var data := Written(off, c.chunkSize, a);
    assert data <= origin[off..Min(off + c.chunkSize, |origin|)] <= origin[off..];
    OriginWrite(file, origin, off, data);
  }

  lemma {:induction false} StepKeepsContent(c: Config, s: Pool, origin: Bytes, a: Action)
    requires c.Valid() && Inv(c, s) && Enabled(c, s, a) && |origin| == c.size
    requires ContentInv(c, s, origin) && HonestStep(c, s, origin, a)
    ensures ContentInv(c, Next(c, s, a), origin)
  {
    var t := Next(c, s, a);
    if a.Try? {
      assert Holding(s.workers[a.w]) == Some(s.workers[a.w].job);
      HonestAttempt(c, s.file, origin, s.workers[a.w].job, a.a);
      forall j | RegionDone(c, s.file, origin, j) ensures RegionDone(c, t.file, origin, j) {
      }
    }
  }

  lemma {:induction false} RunKeepsContent(c: Config, s: Pool, origin: Bytes, actions: seq<Action>)
    requires c.Valid() && Inv(c, s) && |origin| == c.size && ContentInv(c, s, origin)
    requires Run(c, s, actions).Some? && HonestRun(c, s, origin, actions)
    ensures ContentInv(c, Run(c, s, actions).value, origin)
    decreases |actions|
  {
    if actions != [] {
      StepKeepsContent(c, s, origin, actions[0]);
      StepKeepsInv(c, s, actions[0]);
      RunKeepsContent(c, Next(c, s, actions[0]), origin, actions[1..]);
    }
  }

  /** The parallel download is correct: from an origin that honours ranges, for
      every schedule of the workers, every retry and every disk error, a nil
      result means that the file is the origin, byte for byte. */
  lemma NilMeansOriginBytes(c: Config, origin: Bytes, actions: seq<Action>)
    requires c.Valid() && |origin| == c.size && c.workers > 0
    requires Run(c, Start(c), actions).Some? && HonestRun(c, Start(c), origin, actions)
    requires Finished(Run(c, Start(c), actions).value) && Run(c, Start(c), actions).value.errs == 0
    ensures Run(c, Start(c), actions).value.file == origin
  {
    StartInv(c);
    RunKeepsContent(c, Start(c), origin, actions);
    NilIffAllDoneOnce(c, actions);
    var s := Run(c, Start(c), actions).value;
    forall x | 0 <= x < |origin| ensures s.file[x] == origin[x] {
      ByteIsDone(c, s.file, origin, x);
    }
  }

  /** Every answer is the slice that was asked for, complete, and the disk takes
      it. */
  predicate FullStep(c: Config, s: Pool, origin: Bytes, a: Action) {
    a.Try? && a.w < |s.workers| && s.workers[a.w].Trying? ==>
      var off := s.workers[a.w].job * c.chunkSize;
      && off < |origin| && a.a == FullAnswer(c, origin, s.workers[a.w].job)
  }

  function FullAnswer(c: Config, origin: Bytes, job: nat): Attempt {
    var off := job * c.chunkSize;
    Attempt(Response(206, if off < |origin| then origin[off..Min(off + c.chunkSize, |origin|)] else [], Eof), None)
  }

  predicate FullRun(c: Config, s: Pool, origin: Bytes, actions: seq<Action>)
    decreases |actions|
  {
    actions != [] && Enabled(c, s, actions[0]) ==>
      FullStep(c, s, origin, actions[0]) && FullRun(c, Next(c, s, actions[0]), origin, actions[1..])
  }

  predicate Uncancelled(actions: seq<Action>) {
    forall i :: 0 <= i < |actions| ==> !actions[i].SeeCancel? && !actions[i].CancelRetry?
  }

  lemma FullStepIsHonest(c: Config, s: Pool, origin: Bytes, a: Action)
    requires c.Valid() && |origin| == c.size && Inv(c, s) && Enabled(c, s, a) && FullStep(c, s, origin, a)
    ensures HonestStep(c, s, origin, a)
    ensures !a.SeeCancel? && !a.CancelRetry? ==> !GivesUp(c, s, a)
  {
    if a.Try? {
      assert Holding(s.workers[a.w]) == Some(s.workers[a.w].job);
      JobArithmeticIsExact(c, s.workers[a.w].job);
    }
  }

  lemma {:induction false} FullRunIsHonest(c: Config, s: Pool, origin: Bytes, actions: seq<Action>)
    requires c.Valid() && |origin| == c.size && Inv(c, s) && Run(c, s, actions).Some?
    requires FullRun(c, s, origin, actions) && Uncancelled(actions)
    ensures HonestRun(c, s, origin, actions) && GiveUps(c, s, actions) == 0
    decreases |actions|
  {
    if actions != [] {
      FullStepIsHonest(c, s, origin, actions[0]);
      StepKeepsInv(c, s, actions[0]);
      FullRunIsHonest(c, Next(c, s, actions[0]), origin, actions[1..]);
    }
  }

  /** Success as a conclusion: when every answer is full, the disk takes it and
      nothing is cancelled, every schedule that comes to its end is without error
      and leaves the origin. */
  lemma {:induction false} FullServiceSucceeds(c: Config, origin: Bytes, actions: seq<Action>)
    requires c.Valid() && |origin| == c.size && c.workers > 0
    requires Run(c, Start(c), actions).Some? && Finished(Run(c, Start(c), actions).value)
    requires FullRun(c, Start(c), origin, actions) && Uncancelled(actions)
    ensures Run(c, Start(c), actions).value.errs == 0 && Run(c, Start(c), actions).value.file == origin
  {
    StartInv(c);
    FullRunIsHonest(c, Start(c), origin, actions);
    ErrorsAreGiveUps(c, actions);
    NilMeansOriginBytes(c, origin, actions);
  }

  lemma ByteIsDone(c: Config, file: Bytes, origin: Bytes, x: nat)
    requires c.Valid() && x < |origin| == c.size && |file| == |origin|
    requires forall j :: 0 <= j < c.count ==> RegionDone(c, file, origin, j)
    ensures file[x] == origin[x]
  {
    var q := x / c.chunkSize;
    RegionsPartition(c, x, q);
    assert RegionDone(c, file, origin, q);
  }

  /** Progress in every reachable state: whole chunks, never wrapping, never a
      full chunk beyond the size. */
  lemma ProgressIsExact(c: Config, actions: seq<Action>)
    requires c.Valid() && Run(c, Start(c), actions).Some?
    ensures var s := Run(c, Start(c), actions).value;
      && s.downloaded == |s.completed| * c.chunkSize
      && (c.size > 0 ==> s.downloaded < c.size + c.chunkSize)
      && (c.size == 0 ==> s.downloaded == 0)
  {
    StartInv(c);
    RunKeepsInv(c, Start(c), actions);
    var s := Run(c, Start(c), actions).value;
    DownloadedBound(c, s);
    OffsetIsProduct(|s.completed|, c.chunkSize);
  }

  // ------------------------------------------------- transfers that break off

  /** The part of the origin that a range request asks for. */
  function Slice(origin: Bytes, off: nat, size: nat): Bytes {
    if off < |origin| then origin[off..Min(off + size, |origin|)] else []
  }

  /** Every usable response in the schedule carries a prefix of its slice: it may
      break off anywhere, and in whatever way the body ends. */
  predicate PrefixStep(c: Config, s: Pool, origin: Bytes, a: Action) {
    a.Try? && a.w < |s.workers| && s.workers[a.w].Trying? ==>
      var r := a.a.response;
      r.Response? && (r.status == STATUS_OK || r.status == STATUS_PARTIAL) ==>
        r.body <= Slice(origin, JobOffset(c, s.workers[a.w].job), c.chunkSize)
  }

  predicate PrefixRun(c: Config, s: Pool, origin: Bytes, actions: seq<Action>)
    decreases |actions|
  {
    actions != [] && Enabled(c, s, actions[0]) ==>
      PrefixStep(c, s, origin, actions[0]) && PrefixRun(c, Next(c, s, actions[0]), origin, actions[1..])
  }

  /** A step writes the byte at `x`. */
  predicate StepDelivers(c: Config, s: Pool, a: Action, x: nat) {
    a.Try? && a.w < |s.workers| && s.workers[a.w].Trying? &&
    var off := JobOffset(c, s.workers[a.w].job);
    off <= x < off + |Written(off, c.chunkSize, a.a)|
  }

  predicate Delivered(c: Config, s: Pool, actions: seq<Action>, x: nat)
    decreases |actions|
  {
    actions != [] && Enabled(c, s, actions[0]) &&
    (StepDelivers(c, s, actions[0], x) || Delivered(c, Next(c, s, actions[0]), actions[1..], x))
  }

  lemma {:induction false} StepDelivery(c: Config, s: Pool, origin: Bytes, a: Action)
    requires Enabled(c, s, a) && PrefixStep(c, s, origin, a) && |s.file| == |origin|
    ensures var f := Next(c, s, a).file;
      && |f| == |origin|
      && forall x :: 0 <= x < |f| ==> f[x] == if StepDelivers(c, s, a, x) then origin[x] else s.file[x]
  {
    if a.Try? {
      var off := JobOffset(c, s.workers[a.w].job);
      var data := Written(off, c.chunkSize, a.a);
      if data != [] {
        WrittenIsPrefix(off, c.chunkSize, a.a);
        assert data <= Slice(origin, off, c.chunkSize) <= origin[off..];
        OriginWrite(s.file, origin, off, data);
      }
    }
  }

  lemma {:induction false} RunDelivery(c: Config, s: Pool, origin: Bytes, actions: seq<Action>)
    requires Run(c, s, actions).Some? && PrefixRun(c, s, origin, actions) && |s.file| == |origin|
    ensures var f := Run(c, s, actions).value.file;
      && |f| == |origin|
      && forall x :: 0 <= x < |f| ==> f[x] == if Delivered(c, s, actions, x) then origin[x] else s.file[x]
    decreases |actions|
  {
    if actions != [] {
      StepDelivery(c, s, origin, actions[0]);
      RunDelivery(c, Next(c, s, actions[0]), origin, actions[1..]);
    }
  }

  /** When transfers break off, exactly: after any schedule, nil or not, for any
      chunk list, a byte of the file is the origin's if some write delivered it
      and zero otherwise.  So the file is the origin if and only if every byte
      that no write delivered is zero in the origin. */
  lemma {:induction false} RightIffMissingBytesAreZero(c: Config, origin: Bytes, actions: seq<Action>)
    requires |origin| == c.size && Run(c, Start(c), actions).Some? && PrefixRun(c, Start(c), origin, actions)
    ensures var file := Run(c, Start(c), actions).value.file;
      && |file| == |origin|
      && (forall x :: 0 <= x < |file| ==> file[x] == if Delivered(c, Start(c), actions, x) then origin[x] else 0)
      && (file == origin <==> forall x :: 0 <= x < |origin| && !Delivered(c, Start(c), actions, x) ==> origin[x] == 0)
  {
    RunDelivery(c, Start(c), origin, actions);
  }

  const CUT_OFF := Attempt(Response(STATUS_PARTIAL, [], UnexpectedEof), None)

  // One worker takes job after job and gets one answer for each, then everybody
  // goes home.

  function Round(a: Attempt): seq<Action> { [Take(0), Begin(0)] + [Try(0, a), CountDone(0)] }

  function Rounds(answers: nat -> Attempt, n: nat): seq<Action> {
    if n == 0 then [] else Rounds(answers, n - 1) + Round(answers(n - 1))
  }

  function Exits(n: nat): seq<Action> {
    if n == 0 then [] else Exits(n - 1) + [Exit(n - 1)]
  }

  function OneByOne(c: Config, answers: nat -> Attempt): seq<Action> { Rounds(answers, c.count) + Exits(c.workers) }

  lemma {:induction false} RunAppend(c: Config, s: Pool, a: seq<Action>, b: seq<Action>)
    requires Run(c, s, a).Some?
    ensures Run(c, s, a + b) == Run(c, Run(c, s, a).value, b)
    decreases |a|
  {
    if a == [] {
      assert a + b == b;
    } else {
      assert (a + b)[1..] == a[1..] + b;
      RunAppend(c, Next(c, s, a[0]), a[1..], b);
    }
  }

  lemma Run2(c: Config, s: Pool, a: Action, b: Action)
    requires Enabled(c, s, a) && Enabled(c, Next(c, s, a), b)
    ensures Run(c, s, [a, b]) == Some(Next(c, Next(c, s, a), b))
  {
    assert [a, b][1..] == [b] && [b][1..] == [];
    assert Run(c, Next(c, s, a), [b]) == Run(c, Next(c, Next(c, s, a), b), []);
  }

  /** All workers are ready and the first `n` jobs are done. */
  predicate Smooth(c: Config, s: Pool, n: nat) {
    && s.next == n && s.errs == 0
    && |s.workers| == c.workers && forall w :: 0 <= w < |s.workers| ==> s.workers[w] == Ready
  }

  lemma {:induction false} SmoothRound(c: Config, s: Pool, n: nat, a: Attempt)
    requires c.Valid() && c.workers > 0 && Smooth(c, s, n) && n < c.count && Good(a, Offset(n, c.chunkSize), c.chunkSize)
    ensures var r := Run(c, s, Round(a));
      && r.Some? && Smooth(c, r.value, n + 1)
      && r.value.file == AttemptEffect(s.file, Offset(n, c.chunkSize), c.chunkSize, a).0
  {
    JobArithmeticIsExact(c, n);
    GoodAttempt(s.file, Offset(n, c.chunkSize), c.chunkSize, a);
    Run2(c, s, Take(0), Begin(0));
    var t := Next(c, Next(c, s, Take(0)), Begin(0));
    Run2(c, t, Try(0, a), CountDone(0));
    RunAppend(c, s, [Take(0), Begin(0)], [Try(0, a), CountDone(0)]);
  }

  predicate AllGood(c: Config, answers: nat -> Attempt) {
    forall j: nat :: j < c.count ==> Good(answers(j), Offset(j, c.chunkSize), c.chunkSize)
  }

  lemma {:induction false} RoundsRun(c: Config, answers: nat -> Attempt, n: nat)
    requires c.Valid() && c.workers > 0 && n <= c.count && AllGood(c, answers)
    ensures var r := Run(c, Start(c), Rounds(answers, n)); r.Some? && Smooth(c, r.value, n)
    decreases n
  {
    if n > 0 {
      RoundsRun(c, answers, n - 1);
      var k: nat := n - 1;
      assert Good(answers(k), Offset(k, c.chunkSize), c.chunkSize);
      OneMoreRound(c, Rounds(answers, k), k, answers(k));
    }
  }

  lemma {:induction false} OneMoreRound(c: Config, before: seq<Action>, n: nat, a: Attempt)
    requires c.Valid() && c.workers > 0 && n < c.count && Good(a, Offset(n, c.chunkSize), c.chunkSize)
    requires Run(c, Start(c), before).Some? && Smooth(c, Run(c, Start(c), before).value, n)
    ensures var s, r := Run(c, Start(c), before).value, Run(c, Start(c), before + Round(a));
      && r.Some? && Smooth(c, r.value, n + 1)
      && r.value.file == AttemptEffect(s.file, Offset(n, c.chunkSize), c.chunkSize, a).0
  {
    SmoothRound(c, Run(c, Start(c), before).value, n, a);
    RunAppend(c, Start(c), before, Round(a));
  }

  lemma {:induction false} ExitsRun(c: Config, s: Pool, n: nat)
    requires Smooth(c, s, c.count) && n <= c.workers
    ensures var r := Run(c, s, Exits(n));
      && r.Some? && r.value == s.(workers := r.value.workers) && |r.value.workers| == c.workers
      && forall w :: 0 <= w < c.workers ==> r.value.workers[w] == if w < n then Drained else Ready
    decreases n
  {
    if n > 0 {
      ExitsRun(c, s, n - 1);
      var t := Run(c, s, Exits(n - 1)).value;
      RunAppend(c, s, Exits(n - 1), [Exit(n - 1)]);
      assert [Exit(n - 1)][1..] == [];
      assert Run(c, t, [Exit(n - 1)]) == Run(c, Next(c, t, Exit(n - 1)), []);
    }
  }

  /** With good answers that run comes to its end without error. */
  lemma {:induction false} OneByOneEnds(c: Config, answers: nat -> Attempt)
    requires c.Valid() && c.workers > 0 && AllGood(c, answers)
    ensures var r := Run(c, Start(c), OneByOne(c, answers));
      && r.Some? && Finished(r.value) && r.value.errs == 0
      && Run(c, Start(c), Rounds(answers, c.count)).Some?
      && r.value.file == Run(c, Start(c), Rounds(answers, c.count)).value.file
  {
    RoundsRun(c, answers, c.count);
    ExitsRun(c, Run(c, Start(c), Rounds(answers, c.count)).value, c.workers);
    RunAppend(c, Start(c), Rounds(answers, c.count), Exits(c.workers));
  }

  lemma {:induction false} OneByOneTries(answers: nat -> Attempt, n: nat, a: Action)
    ensures a in Rounds(answers, n) ==> !a.SeeCancel? && !a.CancelRetry? && (a.Try? ==> exists j: nat :: j < n && a.a == answers(j))
    ensures a in Exits(n) ==> a.Exit?
    decreases n
  {
    if n > 0 {
      OneByOneTries(answers, n - 1, a);
      if a in Rounds(answers, n - 1) && a.Try? {
        var j: nat :| j < n - 1 && a.a == answers(j);
      }
    }
  }

  lemma {:induction false} SilentRoundsRun(c: Config, answers: nat -> Attempt, n: nat)
    requires c.Valid() && c.workers > 0 && n <= c.count && AllGood(c, answers) && forall j: nat :: answers(j) == CUT_OFF
    ensures var r := Run(c, Start(c), Rounds(answers, n)); r.Some? && Smooth(c, r.value, n) && r.value.file == Zeros(c.size)
    decreases n
  {
    if n > 0 {
      SilentRoundsRun(c, answers, n - 1);
      var k: nat := n - 1;
      assert Good(answers(k), Offset(k, c.chunkSize), c.chunkSize) && answers(k) == CUT_OFF;
      OneMoreRound(c, Rounds(answers, k), k, answers(k));
    }
  }

  lemma {:induction false} CutOffIsPrefix(c: Config, s: Pool, origin: Bytes, actions: seq<Action>)
    requires forall a :: a in actions && a.Try? ==> a.a == CUT_OFF
    ensures PrefixRun(c, s, origin, actions)
    decreases |actions|
  {
    if actions != [] && Enabled(c, s, actions[0]) { CutOffIsPrefix(c, Next(c, s, actions[0]), origin, actions[1..]); }
  }

  /** The condition can fail unnoticed: for every chunk list and every origin that
      is not all zeros there is a schedule in which every job is done, the result
      is nil, and the file is nothing but zeros. */
  lemma {:induction false} TruncationGoesUnnoticed(c: Config, origin: Bytes)
    requires c.Valid() && c.workers > 0 && |origin| == c.size && origin != Zeros(c.size)
    ensures var run := OneByOne(c, _ => CUT_OFF); var r := Run(c, Start(c), run);
      && r.Some? && PrefixRun(c, Start(c), origin, run)
      && Finished(r.value) && r.value.errs == 0 && AllDoneOnce(c, r.value)
      && r.value.file == Zeros(c.size) != origin
  {
    var answers: nat -> Attempt := _ => CUT_OFF;
    forall j: nat | j < c.count ensures Good(answers(j), Offset(j, c.chunkSize), c.chunkSize) { JobArithmeticIsExact(c, j); }
    OneByOneEnds(c, answers);
    SilentRoundsRun(c, answers, c.count);
    NilIffAllDoneOnce(c, OneByOne(c, answers));
    forall a | a in OneByOne(c, answers) && a.Try? ensures a.a == CUT_OFF {
      OneByOneTries(answers, c.count, a);
      OneByOneTries(answers, c.workers, a);
    }
    CutOffIsPrefix(c, Start(c), origin, OneByOne(c, answers));
  }

  // ------------------------------------------------------------ a run that succeeds

  lemma {:induction false} FullAppend(c: Config, s: Pool, origin: Bytes, a: seq<Action>, b: seq<Action>)
    requires Run(c, s, a).Some? && FullRun(c, s, origin, a) && FullRun(c, Run(c, s, a).value, origin, b)
    ensures FullRun(c, s, origin, a + b)
    decreases |a|
  {
    if a == [] {
      assert a + b == b;
    } else {
      assert (a + b)[1..] == a[1..] + b;
      FullAppend(c, Next(c, s, a[0]), origin, a[1..], b);
    }
  }

  lemma {:induction false} NoTriesAreFull(c: Config, s: Pool, origin: Bytes, actions: seq<Action>)
    requires forall i :: 0 <= i < |actions| ==> !actions[i].Try?
    ensures FullRun(c, s, origin, actions)
    decreases |actions|
  {
    if actions != [] && Enabled(c, s, actions[0]) { NoTriesAreFull(c, Next(c, s, actions[0]), origin, actions[1..]); }
  }

  lemma {:induction false} FullRound(c: Config, s: Pool, origin: Bytes, n: nat)
    requires c.Valid() && c.workers > 0 && |origin| == c.size && Smooth(c, s, n) && n < c.count
    ensures FullRun(c, s, origin, Round(FullAnswer(c, origin, n)))
  {
    JobArithmeticIsExact(c, n);
    var a := FullAnswer(c, origin, n);
    Run2(c, s, Take(0), Begin(0));
    NoTriesAreFull(c, s, origin, [Take(0), Begin(0)]);
    var t := Next(c, Next(c, s, Take(0)), Begin(0));
    assert t.workers[0] == Trying(n, 0);
    if Enabled(c, t, Try(0, a)) { NoTriesAreFull(c, Next(c, t, Try(0, a)), origin, [CountDone(0)]); }
    assert [Try(0, a), CountDone(0)][1..] == [CountDone(0)];
    FullAppend(c, s, origin, [Take(0), Begin(0)], [Try(0, a), CountDone(0)]);
  }

  function FullAnswers(c: Config, origin: Bytes): nat -> Attempt { (j: nat) => FullAnswer(c, origin, j) }

  /** Full service, one job after the other. */
  function FullSchedule(c: Config, origin: Bytes): seq<Action> { OneByOne(c, FullAnswers(c, origin)) }

  lemma FullAnswersAreGood(c: Config, origin: Bytes)
    requires c.Valid() && |origin| == c.size
    ensures AllGood(c, FullAnswers(c, origin))
  {
    forall j: nat | j < c.count ensures Good(FullAnswers(c, origin)(j), Offset(j, c.chunkSize), c.chunkSize) {
      JobArithmeticIsExact(c, j);
    }
  }

  lemma {:induction false} RoundsAreFull(c: Config, origin: Bytes, n: nat)
    requires c.Valid() && c.workers > 0 && |origin| == c.size && n <= c.count
    ensures FullRun(c, Start(c), origin, Rounds(FullAnswers(c, origin), n))
    decreases n
  {
    if n > 0 {
      RoundsAreFull(c, origin, n - 1);
      FullAnswersAreGood(c, origin);
      RoundsRun(c, FullAnswers(c, origin), n - 1);
      OneMoreFullRound(c, origin, Rounds(FullAnswers(c, origin), n - 1), n - 1);
    }
  }

  lemma {:induction false} OneMoreFullRound(c: Config, origin: Bytes, before: seq<Action>, n: nat)
    requires c.Valid() && c.workers > 0 && |origin| == c.size && n < c.count
    requires Run(c, Start(c), before).Some? && Smooth(c, Run(c, Start(c), before).value, n)
    requires FullRun(c, Start(c), origin, before)
    ensures FullRun(c, Start(c), origin, before + Round(FullAnswer(c, origin, n)))
  {
    FullRound(c, Run(c, Start(c), before).value, origin, n);
    FullAppend(c, Start(c), origin, before, Round(FullAnswer(c, origin, n)));
  }

  lemma {:induction false} OneByOneIsUncancelled(c: Config, answers: nat -> Attempt)
    ensures Uncancelled(OneByOne(c, answers))
  {
    var run := OneByOne(c, answers);
    forall i | 0 <= i < |run| ensures !run[i].SeeCancel? && !run[i].CancelRetry? {
      OneByOneTries(answers, c.count, run[i]);
      OneByOneTries(answers, c.workers, run[i]);
    }
  }

  lemma {:induction false} FullScheduleIsFull(c: Config, origin: Bytes)
    requires c.Valid() && c.workers > 0 && |origin| == c.size
    ensures FullRun(c, Start(c), origin, FullSchedule(c, origin))
  {
    FullAnswersAreGood(c, origin);
    RoundsRun(c, FullAnswers(c, origin), c.count);
    RoundsAreFull(c, origin, c.count);
    ExitsAreFull(c, Run(c, Start(c), Rounds(FullAnswers(c, origin), c.count)).value, origin, c.workers);
    FullAppend(c, Start(c), origin, Rounds(FullAnswers(c, origin), c.count), Exits(c.workers));
  }

  /** For every chunk list and every origin there is a schedule of full service,
      and it ends without error and with the origin. */
  lemma {:induction false} FullServiceExists(c: Config, origin: Bytes)
    requires c.Valid() && c.workers > 0 && |origin| == c.size
    ensures var run := FullSchedule(c, origin); var r := Run(c, Start(c), run);
      && r.Some? && Finished(r.value) && r.value.errs == 0 && r.value.file == origin
      && FullRun(c, Start(c), origin, run) && Uncancelled(run)
  {
    FullAnswersAreGood(c, origin);
    OneByOneEnds(c, FullAnswers(c, origin));
    FullScheduleIsFull(c, origin);
    OneByOneIsUncancelled(c, FullAnswers(c, origin));
    FullServiceSucceeds(c, origin, FullSchedule(c, origin));
  }

  lemma {:induction false} ExitsAreFull(c: Config, s: Pool, origin: Bytes, n: nat)
    ensures FullRun(c, s, origin, Exits(n))
  {
    forall i | 0 <= i < |Exits(n)| ensures !Exits(n)[i].Try? {
      OneByOneTries(_ => CUT_OFF, n, Exits(n)[i]);
    }
    NoTriesAreFull(c, s, origin, Exits(n));
  }

  // --------------------------------------------------- whatever the responses are

  /** What the last write at `x` put there. */
  function LastWritten(c: Config, s: Pool, actions: seq<Action>, x: nat): Option<Byte>
    decreases |actions|
  {
    if actions == [] || !Enabled(c, s, actions[0]) then None
    else
      var later := LastWritten(c, Next(c, s, actions[0]), actions[1..], x);
      if later.Some? then later
      else if StepDelivers(c, s, actions[0], x) then Some(StepByte(c, s, actions[0], x)) else None
  }

  function StepByte(c: Config, s: Pool, a: Action, x: nat): Byte
    requires StepDelivers(c, s, a, x)
  {
    var off := JobOffset(c, s.workers[a.w].job);
    Written(off, c.chunkSize, a.a)[x - off]
  }

  function ByteAt(file: Bytes, x: nat): Byte { if x < |file| then file[x] else 0 }

  lemma {:induction false} StepContent(c: Config, s: Pool, a: Action)
    requires Enabled(c, s, a)
    ensures var f := Next(c, s, a).file;
      && |s.file| <= |f|
      && (|s.file| < |f| ==> StepDelivers(c, s, a, |f| - 1))
      && forall x: nat :: if StepDelivers(c, s, a, x) then x < |f| && f[x] == StepByte(c, s, a, x)
                          else ByteAt(f, x) == ByteAt(s.file, x)
  {
    if a.Try? {
      var off := JobOffset(c, s.workers[a.w].job);
      var data := Written(off, c.chunkSize, a.a);
      if data != [] { OverwrittenBytes(s.file, off, data); }
    }
  }

  lemma {:induction false} RunContent(c: Config, s: Pool, actions: seq<Action>)
    requires Run(c, s, actions).Some?
    ensures var f := Run(c, s, actions).value.file;
      && |s.file| <= |f|
      && (|s.file| < |f| ==> LastWritten(c, s, actions, |f| - 1).Some?)
      && forall x: nat :: match LastWritten(c, s, actions, x)
           case Some(b) => x < |f| && f[x] == b
           case None => ByteAt(f, x) == ByteAt(s.file, x)
    decreases |actions|
  {
    if actions != [] {
      StepContent(c, s, actions[0]);
      RunContent(c, Next(c, s, actions[0]), actions[1..]);
    }
  }

  /** Any responses at all, any chunk list, any schedule, finished or not: the
      file is the origin if and only if the last write at each place put the
      origin's byte there, zero stands where nothing was written, and nothing was
      written beyond the end. */
  lemma {:induction false} RightIffLastWritesAre(c: Config, origin: Bytes, actions: seq<Action>)
    requires |origin| == c.size && Run(c, Start(c), actions).Some?
    ensures Run(c, Start(c), actions).value.file == origin <==>
      forall x: nat :: match LastWritten(c, Start(c), actions, x)
        case Some(b) => x < |origin| && b == origin[x]
        case None => ByteAt(origin, x) == 0
  {
    RunContent(c, Start(c), actions);
    var f := Run(c, Start(c), actions).value.file;
    if forall x: nat :: match LastWritten(c, Start(c), actions, x)
         case Some(b) => x < |origin| && b == origin[x] case None => ByteAt(origin, x) == 0
    {
      assert |f| == |origin|;
      forall x: nat | x < |f| ensures f[x] == origin[x] { assert ByteAt(f, x) == ByteAt(origin, x); }
    }
  }

  // ------------------------------------------- an origin that ignores the range

  predicate WholeStep(origin: Bytes, a: Action) { a.Try? ==> IgnoresRange(a.a.response, origin) }

  /** From `off` on there are `n` bytes from the beginning of the origin. */
  predicate StartsAt(file: Bytes, origin: Bytes, off: nat, n: nat) {
    n <= |origin| && off + n <= |file| && forall x :: off <= x < off + n ==> file[x] == origin[x - off]
  }

  /** Region `j` starts with the beginning of the origin. */
  predicate StartsOver(c: Config, file: Bytes, origin: Bytes, j: nat) {
    StartsAt(file, origin, Offset(j, c.chunkSize), Min(c.chunkSize, |origin|))
  }

  /** Where a write of the last job can end. */
  function LastEnd(c: Config, origin: Bytes): nat {
    if c.count == 0 then 0 else Offset(c.count - 1, c.chunkSize) + Min(c.chunkSize, |origin|)
  }

  predicate WholeInv(c: Config, s: Pool, origin: Bytes) {
    && c.size <= |s.file|
    && (|s.file| == c.size || |s.file| <= LastEnd(c, origin))
    && (forall j :: j in s.completed ==> StartsOver(c, s.file, origin, j))
    && (forall w :: 0 <= w < |s.workers| && s.workers[w].Fetched? ==> StartsOver(c, s.file, origin, s.workers[w].job))
  }

  /** A write of the beginning of the origin, at the same place or elsewhere. */
  lemma WriteKeepsStart(file: Bytes, origin: Bytes, at: nat, data: Bytes, off: nat, n: nat)
    requires StartsAt(file, origin, off, n) && data != [] && data <= origin
    requires at == off || at + |data| <= off || off + n <= at
    ensures StartsAt(Overwritten(file, at, data), origin, off, n)
  {
    OverwrittenBytes(file, at, data);
  }

  lemma WriteKeepsRegion(c: Config, file: Bytes, origin: Bytes, job: nat, data: Bytes, j: nat)
    requires StartsOver(c, file, origin, j)
    requires data != [] && |data| <= c.chunkSize && data <= origin
    ensures StartsOver(c, Overwritten(file, Offset(job, c.chunkSize), data), origin, j)
  {
    if j < job { OffsetMonotone(j, job, c.chunkSize); }
    if job < j { OffsetMonotone(job, j, c.chunkSize); }
    WriteKeepsStart(file, origin, Offset(job, c.chunkSize), data, Offset(j, c.chunkSize), Min(c.chunkSize, |origin|));
  }

  lemma WriteEnds(c: Config, file: Bytes, origin: Bytes, job: nat, data: Bytes)
    requires job < c.count && data != [] && |data| <= Min(c.chunkSize, |origin|)
    requires c.size <= |file| && (|file| == c.size || |file| <= LastEnd(c, origin))
    ensures var f := Overwritten(file, Offset(job, c.chunkSize), data);
      |file| <= |f| && (|f| == c.size || |f| <= LastEnd(c, origin))
  {
    OverwrittenBytes(file, Offset(job, c.chunkSize), data);
    if job < c.count - 1 { OffsetMonotone(job, c.count - 1, c.chunkSize); }
  }

  lemma {:induction false} WholeAttempt(c: Config, file: Bytes, origin: Bytes, job: nat, a: Attempt)
    requires c.Valid() && job < c.count && |origin| == c.size <= |file| && IgnoresRange(a.response, origin)
    requires |file| == c.size || |file| <= LastEnd(c, origin)
    ensures var (f, ok) := AttemptEffect(file, JobOffset(c, job), c.chunkSize, a);
      && |file| <= |f| && (|f| == c.size || |f| <= LastEnd(c, origin))
      && (ok ==> StartsOver(c, f, origin, job))
      && (forall j: nat :: StartsOver(c, file, origin, j) ==> StartsOver(c, f, origin, j))
  {
    JobArithmeticIsExact(c, job);
    WholeAcceptance(a.response, origin, c.chunkSize);
    var off := Offset(job, c.chunkSize);
    var data := Written(off, c.chunkSize, a);
    assert data <= origin && |data| <= Min(c.chunkSize, |origin|);
    if data != [] {
      WriteEnds(c, file, origin, job, data);
      WriteStarts(file, origin, off, data);
      forall j: nat | StartsOver(c, file, origin, j) ensures StartsOver(c, Overwritten(file, off, data), origin, j) {
        WriteKeepsRegion(c, file, origin, job, data, j);
      }
    }
  }

  lemma WriteStarts(file: Bytes, origin: Bytes, at: nat, data: Bytes)
    requires data != [] && data <= origin
    ensures StartsAt(Overwritten(file, at, data), origin, at, |data|)
  {
    OverwrittenBytes(file, at, data);
  }

  lemma {:induction false} WholeRunKeeps(c: Config, s: Pool, origin: Bytes, actions: seq<Action>)
    requires c.Valid() && Inv(c, s) && |origin| == c.size && WholeInv(c, s, origin)
    requires Run(c, s, actions).Some? && forall a :: a in actions ==> WholeStep(origin, a)
    ensures WholeInv(c, Run(c, s, actions).value, origin)
    decreases |actions|
  {
    if actions != [] {
      WholeStepKeeps(c, s, origin, actions[0]);
      StepKeepsInv(c, s, actions[0]);
      WholeRunKeeps(c, Next(c, s, actions[0]), origin, actions[1..]);
    }
  }

  lemma {:induction false} WholeStepKeeps(c: Config, s: Pool, origin: Bytes, a: Action)
    requires c.Valid() && Inv(c, s) && Enabled(c, s, a) && |origin| == c.size && WholeInv(c, s, origin) && WholeStep(origin, a)
    ensures WholeInv(c, Next(c, s, a), origin)
  {
    if a.Try? {
      assert Holding(s.workers[a.w]) == Some(s.workers[a.w].job);
      WholeAttempt(c, s.file, origin, s.workers[a.w].job, a.a);
    }
  }

  /** The origin repeats itself chunk by chunk, and the last chunk is full. */
  predicate Repeats(c: Config, origin: Bytes)
    requires c.chunkSize > 0
  {
    Offset(c.count, c.chunkSize) == |origin| && forall x :: 0 <= x < |origin| ==> origin[x] == origin[x % c.chunkSize]
  }

  /** An origin that answers range requests with 200 and the whole file: every
      answer is taken for the chunk that was asked for.  With a nil result the
      file is right if and only if it has at most one chunk or repeats itself. */
  lemma {:induction false} WholeAnswersAreRightIff(c: Config, origin: Bytes, actions: seq<Action>)
    requires c.Valid() && |origin| == c.size && c.workers > 0
    requires Run(c, Start(c), actions).Some? && forall a :: a in actions ==> WholeStep(origin, a)
    requires Finished(Run(c, Start(c), actions).value) && Run(c, Start(c), actions).value.errs == 0
    ensures Run(c, Start(c), actions).value.file == origin <==> c.count <= 1 || Repeats(c, origin)
  {
    StartInv(c);
    WholeRunKeeps(c, Start(c), origin, actions);
    NilIffAllDoneOnce(c, actions);
    var f := Run(c, Start(c), actions).value.file;
    forall j | 0 <= j < c.count ensures StartsOver(c, f, origin, j) {
      assert j in Run(c, Start(c), actions).value.completed;
    }
    StartsOverEverywhere(c, f, origin);
  }

  lemma {:induction false} StartsOverEverywhere(c: Config, f: Bytes, origin: Bytes)
    requires c.Valid() && |origin| == c.size <= |f| && (|f| == c.size || |f| <= LastEnd(c, origin))
    requires forall j :: 0 <= j < c.count ==> StartsOver(c, f, origin, j)
    ensures f == origin <==> c.count <= 1 || Repeats(c, origin)
  {
    if c.count == 1 { assert StartsOver(c, f, origin, 0); }
    if c.count > 1 {
      OffsetMonotone(0, c.count - 1, c.chunkSize);
      assert StartsOver(c, f, origin, c.count - 1);
      assert |f| == Offset(c.count, c.chunkSize);
      forall x | 0 <= x < |origin| ensures f[x] == origin[x % c.chunkSize] { RepeatsAt(c, f, origin, x); }
    }
  }

  lemma RepeatsAt(c: Config, f: Bytes, origin: Bytes, x: nat)
    requires c.Valid() && x < |origin| == c.size <= |f| && c.chunkSize <= |origin|
    requires forall j :: 0 <= j < c.count ==> StartsOver(c, f, origin, j)
    ensures f[x] == origin[x % c.chunkSize]
  {
    var q := x / c.chunkSize;
    RegionsPartition(c, x, q);
    OffsetIsProduct(q, c.chunkSize);
    assert x == Offset(q, c.chunkSize) + x % c.chunkSize;
    assert StartsOver(c, f, origin, q);
  }

  // --------------------------------------- the retry loop inside the relation

  /** The steps one worker takes for its job when nobody else moves. */
  function RetrySteps(c: Config, file: Bytes, job: nat, w: nat, attempts: seq<Attempt>, cancelledAt: Option<nat>, attempt: nat): seq<Action>
    requires attempt < MAX_RETRIES <= |attempts|
    decreases MAX_RETRIES - attempt
  {
    if attempt > 0 && cancelledAt == Some(attempt) then [CancelRetry(w)]
    else
      var (f, ok) := AttemptEffect(file, JobOffset(c, job), c.chunkSize, attempts[attempt]);
      [Try(w, attempts[attempt])] +
      (if ok || attempt + 1 == MAX_RETRIES then [] else RetrySteps(c, f, job, w, attempts, cancelledAt, attempt + 1))
  }

  /** `downloadChunkWithRetry` is those steps: the same bytes in the file, and
      the worker has fetched its job or has an error to report as the method
      returns. */
  lemma {:induction false} RetryLoopIsTheseSteps(c: Config, s: Pool, w: nat, attempts: seq<Attempt>, cancelledAt: Option<nat>)
    requires w < |s.workers| && s.workers[w].Trying? && s.workers[w].attempt < MAX_RETRIES <= |attempts|
    ensures var job := s.workers[w].job; var k := s.workers[w].attempt;
      var (file, ok) := RetryEffect(s.file, JobOffset(c, job), c.chunkSize, attempts, cancelledAt, k);
      Run(c, s, RetrySteps(c, s.file, job, w, attempts, cancelledAt, k)) ==
        Some(s.(file := file, workers := s.workers[w := if ok then Fetched(job) else Reporting(job)]))
    decreases MAX_RETRIES - s.workers[w].attempt
  {
    var job, k := s.workers[w].job, s.workers[w].attempt;
    if k > 0 && cancelledAt == Some(k) {
      RunCons(c, s, CancelRetry(w), []);
    } else {
      var a := Try(w, attempts[k]);
      var t := Next(c, s, a);
      if t.workers[w].Trying? {
        RunCons(c, s, a, RetrySteps(c, t.file, job, w, attempts, cancelledAt, k + 1));
        RetryLoopIsTheseSteps(c, t, w, attempts, cancelledAt);
        UpdatedTwice(s.workers, w, t.workers[w], Fetched(job));
        UpdatedTwice(s.workers, w, t.workers[w], Reporting(job));
      } else {
        RunCons(c, s, a, []);
      }
    }
  }

  lemma UpdatedTwice(ws: seq<Worker>, w: nat, a: Worker, b: Worker)
    requires w < |ws|
    ensures ws[w := a][w := b] == ws[w := b]
  {
  }

  lemma RunCons(c: Config, s: Pool, a: Action, rest: seq<Action>)
    requires Enabled(c, s, a)
    ensures Run(c, s, [a] + rest) == Run(c, Next(c, s, a), rest)
    ensures [a] + [] == [a]
  {
    assert ([a] + rest)[1..] == rest;
  }
}
