/** demo/benchmark-store.ts: the shared result and the lease of the run that may replace it. */
module BenchmarkStorage {
  import opened Sequences
  import opened BenchmarkRows
  import opened BenchmarkHistory

  const RUN_LEASE_MS := 5 * 60 * 1000
  const PAIRS_PER_RUN := 6
  const WARMUP_PAIRS := 1

  datatype RunStatus = Running | Failed | Completed

  datatype RunRecord = RunRecord(id: string, buildId: string, startedAt: int, leaseUntil: int, status: RunStatus)

  datatype Diagnostics = Diagnostics(pair: int, group: nat)

  datatype Job = Job(task: bool, orderOffset: nat, deploymentId: string, buildId: string, commitHash: string, runId: string,
                     colo: Option<string>, nextIndex: nat, rows: seq<Row>, verified: nat, diagnostics: seq<Diagnostics>)

  /** `validatePairedResult`: one row a workload, a full set of samples on both sides, none negative. */
  predicate ValidPaired(rows: seq<Row>) {
    && rows != [] && Distinct(rows) && Sampled(rows, PAIRS_PER_RUN)
    && forall i | 0 <= i < |rows| :: NoneNegative(rows[i].samples) && NoneNegative(Samples(rows[i], Reference))
  }

  predicate NoneNegative(samples: seq<real>) { forall i | 0 <= i < |samples| :: samples[i] >= 0.0 }

  predicate IsActive(run: Option<RunRecord>, runId: string, now: int) {
    run.Some? && run.value.id == runId && run.value.status == Running && run.value.leaseUntil > now
  }

  /** A run holds the lease. */
  predicate IsLive(run: Option<RunRecord>, now: int) {
    run.Some? && run.value.status == Running && run.value.leaseUntil > now
  }

  /** Nothing has run for a build, as far as the last run and the last result tell. */
  predicate IsEligible(run: Option<RunRecord>, result: Option<Result>, build: string, now: int) {
    && !IsLive(run, now)
    && !(run.Some? && run.value.buildId == build)
    && !(result.Some? && result.value.buildId == Some(build))
  }

  class BenchmarkStore {
    var run: Option<RunRecord>
    var job: Option<Job>
    var result: Option<Result>
    var history: seq<Point>

    constructor ()
      ensures run == None && job == None && result == None && history == []
    {
      run, job, result, history := None, None, None, [];
    }

    /** Starts a run unless one is live; without `force`, only if neither the last run nor the result is of this build. */
    method Claim(build: string, force: bool, id: string, now: int) returns (started: bool)
      modifies this`run
      ensures started == old(!IsLive(run, now) && (force || IsEligible(run, result, build, now)))
      ensures run == if started then Some(RunRecord(id, build, now, now + RUN_LEASE_MS, Running)) else old(run)
    {
      var attempted := (run.Some? && run.value.buildId == build) || (result.Some? && result.value.buildId == Some(build));
      var running := run.Some? && run.value.status == Running && run.value.leaseUntil > now;
      if running || (!force && attempted) { return false; }
      run := Some(RunRecord(id, build, now, now + RUN_LEASE_MS, Running));
      return true;
    }

    /** Only the active run stores its job, and that renews its lease. */
    method Checkpoint(next: Job, now: int) returns (ok: bool)
      modifies this`job, this`run
      ensures ok == old(IsActive(run, next.runId, now))
      ensures job == if ok then Some(next) else old(job)
      ensures run == if ok then Some(old(run).value.(leaseUntil := now + RUN_LEASE_MS)) else old(run)
    {
      if run.None? || run.value.id != next.runId || run.value.status != Running || run.value.leaseUntil <= now { return false; }
      job, run := Some(next), Some(run.value.(leaseUntil := now + RUN_LEASE_MS));
      return true;
    }

    /** Only the active run publishes: its result, the history and its completion change together. */
    method Complete(next: Result, now: int) returns (ok: bool)
      modifies this`result, this`history, this`run
      ensures ok == old(&& IsActive(run, next.runId, now) && (next.protocol.Some? ==> ValidPaired(next.rows))
                        && UpdateHistory(history, PointOf(next)).Ok?)
      ensures result == if ok then Some(next) else old(result)
      ensures run == if ok then Some(old(run).value.(status := Completed)) else old(run)
      ensures if ok then UpdateHistory(old(history), PointOf(next)) == BenchmarkHistory.Ok(history) else history == old(history)
    {
      if run.None? || run.value.id != next.runId || run.value.status != Running || run.value.leaseUntil <= now { return false; }
      if next.protocol.Some? && !ValidPaired(next.rows) { return false; }
      var points := UpdateHistory(history, PointOf(next));
      if points.Refused? { return false; }
      result, history, run := Some(next), points.value, Some(run.value.(status := Completed));
      return true;
    }

    /** A run can only fail itself. */
    method Fail(runId: string)
      modifies this`run
      ensures run == if old(run.Some? && run.value.id == runId && run.value.status == Running)
                     then Some(old(run).value.(status := Failed)) else old(run)
    {
      if run.Some? && run.value.id == runId && run.value.status == Running {
        run := Some(run.value.(status := Failed));
      }
    }
  }

  lemma OneWorkloadIsValid()
    ensures ValidPaired(ROWS)
  {
    assert |ROWS| == 1 && Samples(ROWS[0], Reference) == SIX;
  }

  /** Three runs that publish in order, and leave two points of one commit. */
  method PublishInOrder() returns (store: BenchmarkStore)
    ensures fresh(store) && store.result == Some(RELABELLED)
    ensures |store.history| == 2 && KeyOf(store.history[0]) == KeyOf(store.history[1]) == Some(Commit("c"))
  {
    hide ValidPaired, UpdateHistory, KeyOf;
    OneWorkloadIsValid();
    TwoPointsOfOneCommit();
    store := new BenchmarkStore();
    var ok := store.Claim("b", false, "run-1", 0);
    ok := store.Complete(UNLABELLED, 1);
    ok := store.Claim("a", false, "run-2", 2);
    ok := store.Complete(LABELLED, 3);
    ok := store.Claim("b", false, "run-3", 4);
    ok := store.Complete(RELABELLED, 5);
  }
}
