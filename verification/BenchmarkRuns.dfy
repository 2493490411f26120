/**
 * demo/benchmark.ts:74-193: a run's groups, counted once each however often an alarm is delivered.
 * Everything that writes is exclusive; the reads an alarm starts with are not, and what it read may be old.
 */
module BenchmarkRuns {
  import opened Sequences
  import opened BenchmarkRows
  import opened BenchmarkHistory
  import opened BenchmarkStorage
  import opened BenchmarkPlan
  import opened BenchmarkClaims

  function Step(job: Job, group: Group): Job {
    job.(nextIndex := group.index + 1, rows := Merge(job.rows, group.rows), verified := job.verified + group.verified,
         diagnostics := job.diagnostics + [group.diagnostics])
  }

  /** A run: how it started, and the groups it has counted. */
  datatype Progress = Progress(start: Job, groups: seq<Group>)

  /** The job after a run's groups. */
  ghost function JobOf(start: Job, groups: seq<Group>): Job {
    if groups == [] then start else Step(JobOf(start, groups[..|groups| - 1]), groups[|groups| - 1])
  }

  /** A run starts with nothing, and its groups are the plan's, in order. */
  ghost predicate WellRun(p: Progress) {
    && p.start.nextIndex == 0 && p.start.rows == [] && p.start.verified == 0 && p.start.diagnostics == []
    && forall i | 0 <= i < |p.groups| :: p.groups[i].index == i
  }

  /** The job at index `k` holds the rows of the groups before `k`, merged once each. */
  lemma {:induction false} JobHoldsGroups(p: Progress, k: nat)
    requires WellRun(p) && k <= |p.groups|
    ensures var job := JobOf(p.start, p.groups[..k]);
            && job.nextIndex == k && job.rows == Merge([], AllRows(p.groups[..k]))
            && job.runId == p.start.runId && job.task == p.start.task && job.buildId == p.start.buildId
  {
    if k > 0 {
      var groups := p.groups[..k];
      assert groups[..k - 1] == p.groups[..k - 1];
      JobHoldsGroups(p, k - 1);
      MergeTwice([], AllRows(groups[..k - 1]), groups[k - 1].rows);
    }
  }

  /** Each sample of each counted group is in the job once, in order, and nothing else is. */
  lemma CountedOnce(p: Progress, k: nat, key: Key, arm: Arm)
    requires WellRun(p) && k <= |p.groups|
    ensures var rows := JobOf(p.start, p.groups[..k]).rows;
            Distinct(rows) && SamplesOf(rows, key, arm) == SamplesOf(AllRows(p.groups[..k]), key, arm)
  {
    JobHoldsGroups(p, k);
    MergeKeepsSamples([], AllRows(p.groups[..k]), key, arm);
  }

  /** A job that a run had at some time. */
  ghost predicate Known(job: Job, runs: map<string, Progress>) {
    && job.runId in runs && job.nextIndex <= |runs[job.runId].groups|
    && job == JobOf(runs[job.runId].start, runs[job.runId].groups[..job.nextIndex])
  }

  /** Runs are added and go on; nothing they counted is taken back. */
  ghost predicate Grows(a: map<string, Progress>, b: map<string, Progress>) {
    forall r | r in a :: r in b && b[r].start == a[r].start && a[r].groups <= b[r].groups
  }

  /** What an alarm has read stays known, whatever happens before it finishes. */
  lemma KnownStays(job: Job, a: map<string, Progress>, b: map<string, Progress>)
    requires Known(job, a) && Grows(a, b)
    ensures Known(job, b)
  {
    var p, q := a[job.runId].groups, b[job.runId].groups;
    assert p[..job.nextIndex] == q[..job.nextIndex];
  }

  /** A published result is a whole run's groups, merged once each. */
  ghost predicate IsPublished(result: Result, runs: map<string, Progress>, suite: seq<seq<Key>>) {
    && result.runId in runs
    && var p := runs[result.runId];
       |p.groups| == Total(suite, p.start.task) && result.rows == Merge([], AllRows(p.groups))
  }

  ghost predicate IsResult(published: seq<Result>, runId: string) {
    exists i | 0 <= i < |published| :: published[i].runId == runId
  }

  /** The stored job is its run's; only a published run has counted one group more. */
  ghost predicate JobHolds(job: Option<Job>, runs: map<string, Progress>, published: seq<Result>) {
    job.Some? ==>
      && Known(job.value, runs)
      && var counted := |runs[job.value.runId].groups|;
         counted == job.value.nextIndex || (counted == job.value.nextIndex + 1 && IsResult(published, job.value.runId))
  }

  ghost predicate RunsHold(runs: map<string, Progress>, claims: seq<Claimed>) {
    forall r | r in runs :: HasClaim(claims, r) && WellRun(runs[r]) && runs[r].start.runId == r
  }

  ghost predicate ClaimsHold(run: Option<RunRecord>, claims: seq<Claimed>) {
    && (run.Some? <==> claims != [])
    && (run.Some? ==> claims[|claims| - 1].id == run.value.id && claims[|claims| - 1].build == run.value.buildId)
    && (forall i, j | 0 <= i < j < |claims| :: claims[i].id != claims[j].id)
  }

  ghost predicate PublishedHold(run: Option<RunRecord>, result: Option<Result>, runs: map<string, Progress>,
                                published: seq<Result>, suite: seq<seq<Key>>) {
    && (forall i | 0 <= i < |published| :: IsPublished(published[i], runs, suite))
    && (forall i, j | 0 <= i < j < |published| :: published[i].runId != published[j].runId)
    && result == (if published == [] then None else Some(published[|published| - 1]))
    && (run.Some? && run.value.status == Running ==> !IsResult(published, run.value.id))
  }

  /** A run that has a job owns the stored one. */
  ghost predicate Owns(run: Option<RunRecord>, job: Option<Job>, runs: map<string, Progress>) {
    run.Some? && run.value.id in runs ==> job.Some? && job.value.runId == run.value.id
  }

  lemma GrowsByOne(runs: map<string, Progress>, id: string, group: Group)
    requires id in runs
    ensures Grows(runs, runs[id := runs[id].(groups := runs[id].groups + [group])])
  {}

  lemma GrowsNot(runs: map<string, Progress>)
    ensures Grows(runs, runs)
  {}

  lemma GrowsByRun(runs: map<string, Progress>, id: string, p: Progress)
    requires id !in runs
    ensures Grows(runs, runs[id := p])
  {}

  /** One more group counted. */
  lemma CountsOne(p: Progress, group: Group, job: Job)
    requires WellRun(p) && job == JobOf(p.start, p.groups) && job.nextIndex == |p.groups| == group.index
    ensures var q := p.(groups := p.groups + [group]);
            && WellRun(q) && JobOf(q.start, q.groups) == Step(job, group) && AllRows(q.groups) == AllRows(p.groups) + group.rows
            && Merge(job.rows, group.rows) == Merge([], AllRows(q.groups))
  {
    var q := p.(groups := p.groups + [group]);
    assert q.groups[..|p.groups|] == p.groups && p.groups[..|p.groups|] == p.groups;
    JobHoldsGroups(p, |p.groups|);
    MergeTwice([], AllRows(p.groups), group.rows);
  }

  /**
   * A run whose groups follow the plan is complete: its last step passes every check on what was measured, unless
   * a sample is negative or the plan has no workload at all.
   */
  lemma PlannedRunIsComplete(p: Progress, group: Group, suite: seq<seq<Key>>)
    requires WellRun(p) && group.index == |p.groups|
    requires Follows(p.groups + [group], PairedPlan(GroupsOf(suite, p.start.task)))
    requires DistinctKeys(Workloads(GroupsOf(suite, p.start.task)))
    ensures var rows := Step(JobOf(p.start, p.groups), group).rows;
            && group.index + 1 == Total(suite, p.start.task)
            && |rows| == Expected(suite, p.start.task) && Sampled(rows, PAIRS_PER_RUN)
            && Keys(rows) == Workloads(GroupsOf(suite, p.start.task))
            && (ValidPaired(rows) <==>
                && rows != []
                && forall i | 0 <= i < |rows| :: NoneNegative(rows[i].samples) && NoneNegative(Samples(rows[i], Reference)))
  {
    hide PairedPlan, Expected, Total, Merge, AllRows, Workloads, NoneNegative, RowsExpected;
    var groups := p.groups + [group];
    assert p.groups[..|p.groups|] == p.groups;
    CountsOne(p, group, JobOf(p.start, p.groups));
    CountsOfPlan(suite, p.start.task);
    PlanCompletes(groups, GroupsOf(suite, p.start.task));
    KeysDiffer(Merge([], AllRows(groups)));
  }

  lemma KeysDiffer(rows: seq<Row>)
    ensures DistinctKeys(Keys(rows)) ==> Distinct(rows)
  {
    forall i | 0 <= i < |rows| ensures Keys(rows)[i] == rows[i].key {}
  }

  /** Results published before stay whole runs. */
  lemma PublishedStay(published: seq<Result>, a: map<string, Progress>, id: string, p: Progress, suite: seq<seq<Key>>)
    requires forall i | 0 <= i < |published| :: IsPublished(published[i], a, suite)
    requires !IsResult(published, id)
    ensures forall i | 0 <= i < |published| :: IsPublished(published[i], a[id := p], suite)
  {
    forall i | 0 <= i < |published| ensures IsPublished(published[i], a[id := p], suite) {
      assert published[i].runId != id;
    }
  }

  lemma PublishedAreRuns(published: seq<Result>, runs: map<string, Progress>, suite: seq<seq<Key>>)
    requires forall i | 0 <= i < |published| :: IsPublished(published[i], runs, suite)
    ensures forall i | 0 <= i < |published| :: published[i].runId in runs
  {}

  /** A run's id has not been used before it is claimed. */
  lemma ClaimKeeps(claims: seq<Claimed>, claim: Claimed, runs: map<string, Progress>, published: seq<Result>)
    requires RunsHold(runs, claims) && !HasClaim(claims, claim.id)
    requires forall i | 0 <= i < |published| :: published[i].runId in runs
    ensures RunsHold(runs, claims + [claim]) && claim.id !in runs && !IsResult(published, claim.id)
  {
    hide WellRun;
    var more := claims + [claim];
    forall r | r in runs ensures HasClaim(more, r) {
      var i :| 0 <= i < |claims| && claims[i].id == r;
      assert more[i].id == r;
    }
  }

  lemma RunsAreClaimed(runs: map<string, Progress>, claims: seq<Claimed>, id: string)
    requires RunsHold(runs, claims) && !HasClaim(claims, id)
    ensures id !in runs
  {}

  /** What every step keeps. */
  ghost predicate Sound(run: Option<RunRecord>, job: Option<Job>, result: Option<Result>, runs: map<string, Progress>,
                        claims: seq<Claimed>, published: seq<Result>, suite: seq<seq<Key>>) {
    && RunsHold(runs, claims) && ClaimsHold(run, claims) && JobHolds(job, runs, published) && Owns(run, job, runs)
    && PublishedHold(run, result, runs, published, suite)
  }

  lemma SoundClaimed(run: Option<RunRecord>, next: RunRecord, job: Option<Job>, result: Option<Result>,
                     runs: map<string, Progress>, claims: seq<Claimed>, claim: Claimed, published: seq<Result>, suite: seq<seq<Key>>)
    requires Sound(run, job, result, runs, claims, published, suite) && !HasClaim(claims, claim.id)
    requires next.id == claim.id && next.buildId == claim.build
    ensures Sound(Some(next), job, result, runs, claims + [claim], published, suite)
  {
    hide WellRun, IsPublished, JobHolds;
    PublishedAreRuns(published, runs, suite);
    ClaimKeeps(claims, claim, runs, published);
    ClaimsDiffer(claims, claim);
  }

  lemma ClaimsDiffer(claims: seq<Claimed>, claim: Claimed)
    requires !HasClaim(claims, claim.id) && forall i, j | 0 <= i < j < |claims| :: claims[i].id != claims[j].id
    ensures var more := claims + [claim]; forall i, j | 0 <= i < j < |more| :: more[i].id != more[j].id
  {}

  lemma FirstIsKnown(first: Job, runs: map<string, Progress>)
    requires WellRun(Progress(first, []))
    ensures Known(first, runs[first.runId := Progress(first, [])]) && first.nextIndex == 0
  {}

  lemma SoundStarted(run: RunRecord, next: RunRecord, job: Option<Job>, first: Job, result: Option<Result>,
                     runs: map<string, Progress>, claims: seq<Claimed>, published: seq<Result>, suite: seq<seq<Key>>)
    requires Sound(Some(run), job, result, runs, claims, published, suite)
    requires run.id == first.runId && next == run.(leaseUntil := next.leaseUntil)
    requires HasClaim(claims, first.runId) && first.runId !in runs && WellRun(Progress(first, []))
    ensures Sound(Some(next), Some(first), result, runs[first.runId := Progress(first, [])], claims, published, suite)
  {
    hide IsPublished, WellRun, HasClaim, Known;
    FirstIsKnown(first, runs);
    PublishedAreRuns(published, runs, suite);
    PublishedStay(published, runs, first.runId, Progress(first, []), suite);
  }

  /** A counted group, with the job that holds it. */
  lemma SoundCounted(run: RunRecord, next: RunRecord, job: Job, group: Group, result: Option<Result>,
                     runs: map<string, Progress>, claims: seq<Claimed>, published: seq<Result>, suite: seq<seq<Key>>)
    requires Sound(Some(run), Some(job), result, runs, claims, published, suite) && run.status == Running
    requires run.id == job.runId && next == run.(leaseUntil := next.leaseUntil)
    requires job.runId in runs && group.index == job.nextIndex == |runs[job.runId].groups|
    ensures Sound(Some(next), Some(Step(job, group)), result, Counted(runs, job.runId, group), claims, published, suite)
  {
    hide JobHolds, PublishedHold, WellRun, HasClaim, JobOf;
    RunsCount(runs, claims, job, group);
    StepHolds(job, group, runs, claims, published);
    PublishedCount(run, next, job, group, result, runs, published, suite);
  }

  lemma StepHolds(job: Job, group: Group, runs: map<string, Progress>, claims: seq<Claimed>, published: seq<Result>)
    requires RunsHold(runs, claims) && JobHolds(Some(job), runs, published)
    requires job.runId in runs && group.index == job.nextIndex == |runs[job.runId].groups|
    ensures JobHolds(Some(Step(job, group)), Counted(runs, job.runId, group), published)
  {
    var p := runs[job.runId];
    assert p.groups[..|p.groups|] == p.groups;
    CountsOne(p, group, job);
    var q := p.(groups := p.groups + [group]);
    assert q.groups[..|q.groups|] == q.groups;
    hide RunsHold, JobOf, Merge;
  }

  lemma PublishedCount(run: RunRecord, next: RunRecord, job: Job, group: Group, result: Option<Result>,
                       runs: map<string, Progress>, published: seq<Result>, suite: seq<seq<Key>>)
    requires PublishedHold(Some(run), result, runs, published, suite) && run.status == Running && run.id == job.runId
    requires next == run.(leaseUntil := next.leaseUntil) && job.runId in runs
    ensures PublishedHold(Some(next), result, Counted(runs, job.runId, group), published, suite)
  {
    PublishedStay(published, runs, job.runId, runs[job.runId].(groups := runs[job.runId].groups + [group]), suite);
    hide IsPublished;
  }

  /** The last group, with the result that holds it. */
  lemma SoundPublished(run: RunRecord, job: Job, group: Group, result: Option<Result>, next: Result,
                       runs: map<string, Progress>, claims: seq<Claimed>, published: seq<Result>, suite: seq<seq<Key>>)
    requires Sound(Some(run), Some(job), result, runs, claims, published, suite) && run.status == Running
    requires run.id == job.runId == next.runId && next.rows == Merge(job.rows, group.rows)
    requires job.runId in runs && group.index == job.nextIndex == |runs[job.runId].groups|
    requires group.index + 1 == Total(suite, runs[job.runId].start.task)
    ensures Sound(Some(run.(status := Completed)), Some(job), Some(next), Counted(runs, job.runId, group), claims,
                  published + [next], suite)
  {
    hide JobHolds, PublishedHold, WellRun, HasClaim, Known, Merge, AllRows;
    RunsCount(runs, claims, job, group);
    JobStillHolds(job, group, next, runs, claims, published);
    PublishedGrow(run, job, group, result, next, runs, claims, published, suite);
  }

  lemma RunsCount(runs: map<string, Progress>, claims: seq<Claimed>, job: Job, group: Group)
    requires RunsHold(runs, claims) && job.runId in runs && group.index == |runs[job.runId].groups|
    ensures RunsHold(Counted(runs, job.runId, group), claims)
  {
    hide HasClaim;
  }

  lemma JobStillHolds(job: Job, group: Group, next: Result, runs: map<string, Progress>, claims: seq<Claimed>, published: seq<Result>)
    requires JobHolds(Some(job), runs, published) && job.runId in runs && |runs[job.runId].groups| == job.nextIndex
    requires next.runId == job.runId
    ensures JobHolds(Some(job), Counted(runs, job.runId, group), published + [next])
  {
    GrowsByOne(runs, job.runId, group);
    KnownStays(job, runs, Counted(runs, job.runId, group));
    PublishedMore(published, next);
    hide Known;
  }

  lemma LastPublished(job: Job, group: Group, next: Result, runs: map<string, Progress>, claims: seq<Claimed>,
                      published: seq<Result>, suite: seq<seq<Key>>)
    requires RunsHold(runs, claims) && JobHolds(Some(job), runs, published)
    requires job.runId == next.runId && next.rows == Merge(job.rows, group.rows)
    requires job.runId in runs && group.index == job.nextIndex == |runs[job.runId].groups|
    requires group.index + 1 == Total(suite, runs[job.runId].start.task)
    ensures IsPublished(next, Counted(runs, job.runId, group), suite)
  {
    var p := runs[job.runId];
    assert p.groups[..|p.groups|] == p.groups;
    CountsOne(p, group, job);
  }

  lemma PublishedGrow(run: RunRecord, job: Job, group: Group, result: Option<Result>, next: Result,
                      runs: map<string, Progress>, claims: seq<Claimed>, published: seq<Result>, suite: seq<seq<Key>>)
    requires RunsHold(runs, claims) && JobHolds(Some(job), runs, published) && PublishedHold(Some(run), result, runs, published, suite)
    requires run.status == Running && run.id == job.runId == next.runId && next.rows == Merge(job.rows, group.rows)
    requires job.runId in runs && group.index == job.nextIndex == |runs[job.runId].groups|
    requires group.index + 1 == Total(suite, runs[job.runId].start.task)
    ensures PublishedHold(Some(run.(status := Completed)), Some(next), Counted(runs, job.runId, group), published + [next], suite)
  {
    var q := runs[job.runId].(groups := runs[job.runId].groups + [group]);
    LastPublished(job, group, next, runs, claims, published, suite);
    hide IsPublished, RunsHold, JobHolds, Merge;
    PublishedStay(published, runs, job.runId, q, suite);
    PublishedMore(published, next);
  }

  lemma PublishedMore(published: seq<Result>, next: Result)
    ensures IsResult(published + [next], next.runId)
    ensures !IsResult(published, next.runId) ==> forall i | 0 <= i < |published| :: published[i].runId != next.runId
  {
    assert (published + [next])[|published|] == next;
  }

  ghost function Counted(runs: map<string, Progress>, id: string, group: Group): map<string, Progress>
    requires id in runs
  {
    runs[id := runs[id].(groups := runs[id].groups + [group])]
  }

  lemma SoundFailed(run: RunRecord, job: Option<Job>, result: Option<Result>,
                    runs: map<string, Progress>, claims: seq<Claimed>, published: seq<Result>, suite: seq<seq<Key>>)
    requires Sound(Some(run), job, result, runs, claims, published, suite)
    ensures Sound(Some(run.(status := Failed)), job, result, runs, claims, published, suite)
  {
    hide RunsHold, JobHolds, IsPublished;
  }

  /** With the run still active and the index unmoved, the stored job is the one that was read. */
  lemma Reads(job: Job, stored: Job, run: RunRecord, result: Option<Result>, runs: map<string, Progress>, claims: seq<Claimed>,
              published: seq<Result>, suite: seq<seq<Key>>)
    requires Sound(Some(run), Some(stored), result, runs, claims, published, suite)
    requires Known(job, runs) && run.id == job.runId && run.status == Running && stored.nextIndex == job.nextIndex
    ensures stored == job && job.runId in runs && |runs[job.runId].groups| == job.nextIndex
    ensures runs[job.runId].start.task == job.task
  {
    var p := runs[job.runId];
    assert p.groups[..|p.groups|] == p.groups;
    JobHoldsGroups(p, |p.groups|);
  }

  /** A published result holds each sample of each group of the plan once, in order, and nothing else. */
  lemma PublishedOnce(run: Option<RunRecord>, job: Option<Job>, result: Option<Result>, runs: map<string, Progress>,
                      claims: seq<Claimed>, published: seq<Result>, suite: seq<seq<Key>>, i: nat, key: Key, arm: Arm)
    requires Sound(run, job, result, runs, claims, published, suite) && i < |published|
    ensures published[i].runId in runs
    ensures var p := runs[published[i].runId];
            && |p.groups| == Total(suite, p.start.task) && (forall k | 0 <= k < |p.groups| :: p.groups[k].index == k)
            && Distinct(published[i].rows)
            && SamplesOf(published[i].rows, key, arm) == SamplesOf(AllRows(p.groups), key, arm)
  {
    hide JobHolds, Owns, ClaimsHold, HasClaim, Merge, AllRows;
    assert IsPublished(published[i], runs, suite);
    MergeKeepsSamples([], AllRows(runs[published[i].runId].groups), key, arm);
    assert SamplesOf([], key, arm) == [];
  }

  datatype Finished =
    | Advanced
    | Published
    | Duplicate
    | Rejected

  /** What a request finds is what has happened. */
  lemma Finds(r: Request, run: Option<RunRecord>, result: Option<Result>, claims: seq<Claimed>,
              runs: map<string, Progress>, published: seq<Result>, suite: seq<seq<Key>>, now: int)
    requires ClaimsHold(run, claims) && PublishedHold(run, result, runs, published, suite)
    requires r.runs == |claims| && r.results == |published| && r.live == IsLive(run, now)
    ensures Starts(r, claims, published) == (!IsLive(run, now) && (r.claim.forced || IsEligible(run, result, r.claim.build, now)))
    ensures Ran(claims, |claims|, r.claim.build) ==> run.Some?
  {
    hide IsPublished, IsLive;
  }

  class PublicBenchmarks {
    const store: BenchmarkStore
    const suite: seq<seq<Key>>
    const protocol: bool -> string
    const measurement: bool -> string
    ghost var runs: map<string, Progress>
    ghost var claims: seq<Claimed>
    ghost var published: seq<Result>
    ghost var asked: seq<Request>

    ghost predicate Inv()
      reads this, store
    {
      Sound(store.run, store.job, store.result, runs, claims, published, suite) && Recorded(asked, claims, published)
    }

    constructor (suite: seq<seq<Key>>, protocol: bool -> string, measurement: bool -> string)
      ensures Inv() && runs == map[] && claims == [] && published == [] && asked == []
      ensures fresh(store) && store.run == None && store.job == None && store.result == None && store.history == []
      ensures this.suite == suite && this.protocol == protocol && this.measurement == measurement
    {
      this.suite, this.protocol, this.measurement := suite, protocol, measurement;
      store := new BenchmarkStore();
      runs, claims, published, asked := map[], [], [], [];
    }

    /** The first half of starting a run; a coordinator evicted here leaves the old job in place. */
    method ClaimRun(build: string, force: bool, id: string, now: int) returns (started: bool)
      requires Inv() && !HasClaim(claims, id)
      modifies this`claims, this`asked, store`run
      ensures Inv()
      ensures started == old(!IsLive(store.run, now) && (force || IsEligible(store.run, store.result, build, now)))
      ensures !force && old(Ran(claims, |claims|, build)) ==>
                old(store.run.Some?)
                && (started <==> old(&& !IsLive(store.run, now) && store.run.value.buildId != build
                                     && (store.result.None? || store.result.value.buildId != Some(build))))
      ensures claims == if started then old(claims) + [Claimed(id, build, force)] else old(claims)
      ensures asked == old(asked + [Request(Claimed(id, build, force), IsLive(store.run, now), |claims|, |published|)])
      ensures store.run == if started then Some(RunRecord(id, build, now, now + RUN_LEASE_MS, Running)) else old(store.run)
    {
      hide HasClaim, ClaimsHold, PublishedHold, RunsHold, JobHolds, Owns, Recorded, Starts, Ran;
      ghost var run := store.run;
      ghost var request := Request(Claimed(id, build, force), IsLive(run, now), |claims|, |published|);
      Finds(request, run, store.result, claims, runs, published, suite, now);
      RecordsOne(asked, request, claims, published);
      asked := asked + [request];
      started := store.Claim(build, force, id, now);
      if started {
        SoundClaimed(run, store.run.value, store.job, store.result, runs, claims, request.claim, published, suite);
        claims := claims + [request.claim];
      }
    }

    /** The second half: the run's first job, if its lease has not run out. */
    method ClaimJob(job: Job, now: int) returns (ok: bool)
      requires Inv() && HasClaim(claims, job.runId) && job.runId !in runs && WellRun(Progress(job, []))
      modifies this`runs, store`job, store`run
      ensures Inv() && Grows(old(runs), runs)
      ensures ok == old(IsActive(store.run, job.runId, now))
      ensures runs == if ok then old(runs)[job.runId := Progress(job, [])] else old(runs)
      ensures store.job == if ok then Some(job) else old(store.job)
      ensures store.run == if ok then Some(old(store.run).value.(leaseUntil := now + RUN_LEASE_MS)) else old(store.run)
    {
      hide Sound, HasClaim, WellRun;
      ghost var run, before := store.run, store.job;
      ok := store.Checkpoint(job, now);
      if ok {
        GrowsByRun(runs, job.runId, Progress(job, []));
        SoundStarted(run.value, store.run.value, before, job, store.result, runs, claims, published, suite);
        runs := runs[job.runId := Progress(job, [])];
      }
    }

    /** Starts a run; `evicted` cuts it short between its two writes. */
    method Claim(expectedBuild: Option<string>, build: string, force: bool, job: Job, now: int, later: int, evicted: bool)
      returns (started: bool)
      requires Inv() && !HasClaim(claims, job.runId) && WellRun(Progress(job, []))
      modifies this`claims, this`asked, this`runs, store`run, store`job
      ensures Inv() && Grows(old(runs), runs)
      ensures started == old(&& (expectedBuild.Some? ==> expectedBuild.value == build)
                             && !IsLive(store.run, now) && (force || IsEligible(store.run, store.result, build, now)))
      ensures claims == if started then old(claims) + [Claimed(job.runId, build, force)] else old(claims)
      ensures asked == if expectedBuild.Some? && expectedBuild.value != build then old(asked)
                       else old(asked + [Request(Claimed(job.runId, build, force), IsLive(store.run, now), |claims|, |published|)])
      ensures var stored := started && !evicted && later < now + RUN_LEASE_MS;
              && store.job == (if stored then Some(job) else old(store.job))
              && store.run == (if started then Some(RunRecord(job.runId, build, now, (if stored then later else now) + RUN_LEASE_MS, Running))
                               else old(store.run))
              && runs == (if stored then old(runs)[job.runId := Progress(job, [])] else old(runs))
    {
      started := false;
      if expectedBuild.Some? && expectedBuild.value != build { return; }
      hide WellRun, ClaimsHold, JobHolds, Owns, PublishedHold;
      ghost var before := claims;
      RunsAreClaimed(runs, claims, job.runId);
      started := ClaimRun(build, force, job.runId, now);
      if started && !evicted {
        assert claims[|before|].id == job.runId;
        var ok := ClaimJob(job, later);
      }
    }

    /** What an alarm starts from. */
    method ReadJob(now: int) returns (job: Option<Job>)
      requires Inv()
      ensures job.Some? ==> IsLive(store.run, now) && Known(job.value, runs)
    {
      if !IsLive(store.run, now) { return None; }
      return store.job;
    }

    /** The checks before measuring, and again before counting. */
    method IsCurrent(job: Job, build: string, now: int) returns (ok: bool)
      ensures ok == (store.job.Some? && store.job.value.buildId == build && IsActive(store.run, job.runId, now))
    {
      ok := store.job.Some? && store.job.value.buildId == build
            && store.run.Some? && store.run.value.id == job.runId && store.run.value.status == Running && store.run.value.leaseUntil > now;
    }

    /** The result that a finished job is published as. */
    function Report(job: Job, build: string, completedAt: string): Result {
      Result(Some(protocol(job.task)), Some(job.commitHash), Some(job.deploymentId), Some(build), job.runId, completedAt,
             "isomorphic-git 1.43.1", measurement(job.task), job.rows, job.verified)
    }

    /** The job an alarm has read is still the stored one, of this build, and its run stays active while it is counted. */
    ghost predicate Counts(job: Job, build: string, now: int, later: int)
      reads store
    {
      && store.job.Some? && store.job.value.buildId == build && store.job.value.nextIndex == job.nextIndex
      && IsActive(store.run, job.runId, now) && IsActive(store.run, job.runId, later)
    }

    /**
     * Counts a measured group, unless the run is no longer active or the group has been counted; after the
     * last one it publishes. `job` is what the alarm read before measuring, however long ago that was.
     */
    method Finish(job: Job, group: Group, build: string, completedAt: string, now: int, later: int) returns (r: Finished)
      requires Inv() && Known(job, runs) && group.index == job.nextIndex < Total(suite, job.task)
      modifies this`runs, this`published, store
      ensures Inv() && Grows(old(runs), runs)
      ensures r.Duplicate? <==> old(&& store.job.Some? && store.job.value.buildId == build && IsActive(store.run, job.runId, now)
                                    && store.job.value.nextIndex != job.nextIndex)
      ensures r.Advanced? <==> job.nextIndex + 1 < Total(suite, job.task) && old(Counts(job, build, now, later))
      ensures r.Published? <==>
                && job.nextIndex + 1 == Total(suite, job.task) && old(Counts(job, build, now, later))
                && |Step(job, group).rows| == Expected(suite, job.task) && Sampled(Step(job, group).rows, PAIRS_PER_RUN)
                && ValidPaired(Step(job, group).rows)
                && UpdateHistory(old(store.history), PointOf(Report(Step(job, group), build, completedAt))).Ok?
      ensures r.Advanced? || r.Published? ==>
                && old(store.job) == Some(job) && job.runId in old(runs) && |old(runs)[job.runId].groups| == job.nextIndex
                && runs == Counted(old(runs), job.runId, group)
      ensures r.Advanced? ==>
                && store.job == Some(Step(job, group)) && published == old(published)
                && store.run == Some(old(store.run).value.(leaseUntil := later + RUN_LEASE_MS))
                && store.result == old(store.result) && store.history == old(store.history)
      ensures r.Published? ==>
                && store.result == Some(Report(Step(job, group), build, completedAt)) && published == old(published) + [store.result.value]
                && UpdateHistory(old(store.history), PointOf(store.result.value)) == BenchmarkHistory.Ok(store.history)
                && store.run == Some(old(store.run).value.(status := Completed)) && store.job == old(store.job)
      ensures r.Duplicate? || r.Rejected? ==>
                runs == old(runs) && published == old(published) && store.job == old(store.job) && store.run == old(store.run)
                && store.result == old(store.result) && store.history == old(store.history)
    {
      hide Sound, Recorded, Known, Grows, Merge, ValidPaired, UpdateHistory, Sampled, Total, Expected;
      GrowsNot(runs);
      var current := IsCurrent(job, build, now);
      if !current { return Rejected; }
      if store.job.value.nextIndex != job.nextIndex { return Duplicate; }
      ghost var run, result := store.run.value, store.result;
      Reads(job, store.job.value, run, result, runs, claims, published, suite);
      GrowsByOne(runs, job.runId, group);
      var rows := MergeRows(job.rows, group.rows);
      var next := job.(nextIndex := group.index + 1, rows := rows, verified := job.verified + group.verified,
                       diagnostics := job.diagnostics + [group.diagnostics]);
      if next.nextIndex == Total(suite, job.task) {
        if |rows| != Expected(suite, job.task) || !Sampled(rows, PAIRS_PER_RUN) { return Rejected; }
        var output := Report(next, build, completedAt);
        var ok := store.Complete(output, later);
        if !ok { return Rejected; }
        SoundPublished(run, job, group, result, output, runs, claims, published, suite);
        RecordsStay(asked, claims, published, output);
        runs, published := Counted(runs, job.runId, group), published + [output];
        return Published;
      }
      var ok := store.Checkpoint(next, later);
      if !ok { return Rejected; }
      SoundCounted(run, store.run.value, job, group, result, runs, claims, published, suite);
      runs := Counted(runs, job.runId, group);
      return Advanced;
    }

    /** What an alarm does when anything went wrong: it fails its own run, and only that. */
    method FailRun(runId: string)
      requires Inv()
      modifies store`run
      ensures Inv()
      ensures store.run == if old(store.run.Some? && store.run.value.id == runId && store.run.value.status == Running)
                           then Some(old(store.run).value.(status := Failed)) else old(store.run)
    {
      hide Sound;
      ghost var run := store.run;
      if run.Some? { SoundFailed(run.value, store.job, store.result, runs, claims, published, suite); }
      store.Fail(runId);
    }
  }

  /** Two deployments that answer in turn each start a run, and then the first starts another. */
  method RunInTurn() returns (benchmarks: PublicBenchmarks)
    ensures fresh(benchmarks) && benchmarks.Inv()
    ensures benchmarks.asked == IN_TURN && benchmarks.claims == [FIRST, OTHER, AGAIN] && benchmarks.published == []
  {
    hide Sound, Recorded;
    benchmarks := new PublicBenchmarks([], _ => "", _ => "");
    var first := benchmarks.ClaimRun("a", false, "1", 0);
    var other := benchmarks.ClaimRun("b", false, "2", RUN_LEASE_MS);
    var again := benchmarks.ClaimRun("a", false, "3", 2 * RUN_LEASE_MS);
  }
}
