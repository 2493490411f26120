/** demo/benchmark-store.ts:113-262: the trend of results, a point at a time. */
module BenchmarkHistory {
  import opened Sequences
  import opened BenchmarkRows

  const MAX_RUNS_PER_COMMIT := 12
  const MAX_POINTS := 10

  datatype Result = Result(protocol: Option<string>, commitHash: Option<string>, deploymentId: Option<string>,
                           buildId: Option<string>, runId: string, completedAt: string, engine: string,
                           measurement: string, rows: seq<Row>, verified: nat)

  /** One run behind a point. */
  datatype Observation = Observation(runId: string, completedAt: string, buildId: Option<string>,
                                     deploymentId: Option<string>, rows: seq<Row>)

  datatype Point = Point(protocol: Option<string>, runs: Option<seq<Observation>>, totalRuns: Option<nat>,
                         engine: Option<string>, measurement: Option<string>, commitHash: Option<string>,
                         buildId: Option<string>, deploymentId: Option<string>, completedAt: string, rows: seq<Key>)

  datatype Outcome<+T> = Ok(value: T) | Refused

  /** What a point is filed under. */
  datatype HistoryKey = Commit(hash: string) | Build(id: string) | Deployment(id: string)

  predicate Given(name: Option<string>) { name.Some? && name.value != "" }

  function KeyOf(point: Point): Option<HistoryKey> {
    if Given(point.commitHash) then Some(Commit(point.commitHash.value))
    else if Given(point.buildId) then Some(Build(point.buildId.value))
    else if Given(point.deploymentId) then Some(Deployment(point.deploymentId.value))
    else None
  }

  function PointOf(result: Result): Point {
    Point(result.protocol,
          if result.protocol.Some?
          then Some([Observation(result.runId, result.completedAt, result.buildId, result.deploymentId, result.rows)]) else None,
          if result.protocol.Some? then Some(1) else None,
          Some(result.engine), Some(result.measurement), result.commitHash, result.buildId, result.deploymentId,
          result.completedAt, Keys(result.rows))
  }

  function Last<T>(s: seq<T>, n: nat): seq<T> { if |s| <= n then s else s[|s| - n..] }

  predicate HasRun(runs: seq<Observation>, id: string) { exists i | 0 <= i < |runs| :: runs[i].runId == id }

  /** Every workload of the point has a row in every run. */
  predicate Covers(runs: seq<Observation>, rows: seq<Key>) {
    forall i, j | 0 <= i < |runs| && 0 <= j < |rows| :: FindKey(runs[i].rows, rows[j]) < |runs[i].rows|
  }

  /** Some run has a sample for every workload. */
  predicate HasSamples(runs: seq<Observation>, rows: seq<Key>) {
    forall j | 0 <= j < |rows| ::
      exists i | 0 <= i < |runs| ::
        var k := FindKey(runs[i].rows, rows[j]); k < |runs[i].rows| && runs[i].rows[k].samples != []
  }

  /** A point after the one it is filed with. */
  function Accumulate(previous: Point, point: Point): Outcome<Point> {
    if point.protocol.None? || point.runs.None? || previous.protocol != point.protocol || previous.runs.None? then Ok(point)
    else if previous.buildId != point.buildId || previous.engine != point.engine || previous.measurement != point.measurement
    then Refused
    else if point.runs.value == [] then Refused
    else
      var incoming := point.runs.value[0];
      if HasRun(previous.runs.value, incoming.runId) then Ok(previous)
      else if multiset(previous.rows) != multiset(Keys(incoming.rows)) then Refused
      else
        var runs := Last(previous.runs.value + [incoming], MAX_RUNS_PER_COMMIT);
        if !Covers(runs, point.rows) || !HasSamples(runs, point.rows) then Refused
        else
          var total := if previous.totalRuns.Some? then previous.totalRuns.value else |previous.runs.value|;
          Ok(point.(runs := Some(runs), totalRuns := Some(total + 1)))
  }

  /** A saved point that a new one belongs to: filed alike, or the same build before it had a commit. */
  predicate Belongs(saved: Point, point: Point) {
    KeyOf(saved) == KeyOf(point) || (!Given(saved.commitHash) && point.buildId.Some? && saved.buildId == point.buildId)
  }

  function FindPoint(history: seq<Point>, point: Point): (i: nat)
    ensures i <= |history| && (i < |history| ==> Belongs(history[i], point))
    ensures forall j | 0 <= j < i :: !Belongs(history[j], point)
  {
    if history == [] || Belongs(history[0], point) then 0 else FindPoint(history[1..], point) + 1
  }

  function UpdateHistory(history: seq<Point>, point: Point): Outcome<seq<Point>> {
    if KeyOf(point).None? then Ok(history)
    else
      var i := FindPoint(history, point);
      if i == |history| then Ok(Last(history + [point], MAX_POINTS))
      else
        match Accumulate(history[i], point)
        case Refused => Refused
        case Ok(next) => Ok(Last(history[i := next], MAX_POINTS))
  }

  /** A run filed with others comes last, behind the latest of them in their order, and is counted. */
  lemma NewestIsLast(previous: Point, point: Point)
    requires point.protocol.Some? && previous.protocol == point.protocol && previous.runs.Some? && point.runs.Some?
    requires point.runs.value != [] && !HasRun(previous.runs.value, point.runs.value[0].runId) && Accumulate(previous, point).Ok?
    ensures var before, next := previous.runs.value, Accumulate(previous, point).value;
            && next.runs.Some?
            && var runs := next.runs.value;
               && |runs| == (if |before| < 12 then |before| + 1 else 12) && runs[|runs| - 1] == point.runs.value[0]
               && (forall i | 0 <= i < |runs| - 1 :: runs[i] == before[|before| + 1 - |runs| + i])
               && next == point.(runs := Some(runs), totalRuns := Some(1 + if previous.totalRuns.Some? then previous.totalRuns.value else |before|))
  {
    hide Covers, HasSamples, HasRun;
  }

  ghost predicate HasRow(rows: seq<Row>, key: Key) { exists k | 0 <= k < |rows| :: rows[k].key == key }

  ghost predicate IsSampled(rows: seq<Row>, key: Key) { exists k | 0 <= k < |rows| :: rows[k].key == key && rows[k].samples != [] }

  /** Every run that stays at a point has a row for each of its workloads, and for each some run has a sample. */
  lemma AcceptedIsCovered(previous: Point, point: Point, j: nat)
    requires point.protocol.Some? && previous.protocol == point.protocol && previous.runs.Some? && point.runs.Some?
    requires point.runs.value != [] && !HasRun(previous.runs.value, point.runs.value[0].runId) && Accumulate(previous, point).Ok?
    requires j < |point.rows|
    ensures var runs := Accumulate(previous, point).value.runs.value;
            && (forall i | 0 <= i < |runs| :: HasRow(runs[i].rows, point.rows[j]))
            && exists i | 0 <= i < |runs| :: IsSampled(runs[i].rows, point.rows[j])
  {
    hide HasRun, HasRow, IsSampled, Last;
    var runs := Accumulate(previous, point).value.runs.value;
    assert Covers(runs, point.rows) && HasSamples(runs, point.rows);
    forall i | 0 <= i < |runs| ensures HasRow(runs[i].rows, point.rows[j]) { FoundRow(runs[i].rows, point.rows[j]); }
    var i :| 0 <= i < |runs| && var k := FindKey(runs[i].rows, point.rows[j]); k < |runs[i].rows| && runs[i].rows[k].samples != [];
    FoundRow(runs[i].rows, point.rows[j]);
  }

  lemma FoundRow(rows: seq<Row>, key: Key)
    ensures var k := FindKey(rows, key);
            k < |rows| ==> HasRow(rows, key) && (rows[k].samples != [] ==> IsSampled(rows, key))
  {
    var k := FindKey(rows, key);
    if k < |rows| { assert rows[k].key == key; }
  }

  lemma FirstBelongs(history: seq<Point>, point: Point, i: nat)
    requires i <= |history| && (i < |history| ==> Belongs(history[i], point))
    requires forall j | 0 <= j < i :: !Belongs(history[j], point)
    ensures FindPoint(history, point) == i
  {}

  /** Observations of a point that a run is filed with once. */
  predicate RunsDiffer(runs: seq<Observation>) {
    forall i, j | 0 <= i < j < |runs| :: runs[i].runId != runs[j].runId
  }

  /** A point as results make them: not too many runs, each counted once. */
  predicate Tidy(point: Point) {
    point.runs.Some? ==>
      && 0 < |point.runs.value| <= MAX_RUNS_PER_COMMIT && RunsDiffer(point.runs.value)
      && point.totalRuns.Some? && |point.runs.value| <= point.totalRuns.value
  }

  predicate AllTidy(history: seq<Point>) {
    |history| <= MAX_POINTS && forall i | 0 <= i < |history| :: Tidy(history[i])
  }

  lemma AccumulateIsTidy(previous: Point, point: Point)
    requires Tidy(previous) && Tidy(point) && Accumulate(previous, point).Ok?
    ensures Tidy(Accumulate(previous, point).value)
  {
    hide Covers, HasSamples;
  }

  /** The history stays bounded, and no run is counted twice at a point. */
  lemma UpdateIsTidy(history: seq<Point>, result: Result)
    requires AllTidy(history) && UpdateHistory(history, PointOf(result)).Ok?
    ensures AllTidy(UpdateHistory(history, PointOf(result)).value)
  {
    hide Accumulate;
    var point := PointOf(result);
    var i := FindPoint(history, point);
    if KeyOf(point).Some? && i < |history| { AccumulateIsTidy(history[i], point); }
  }

  /** Filing a point where it has just been filed changes nothing. */
  lemma AccumulateAgain(previous: Point, result: Result)
    requires Accumulate(previous, PointOf(result)).Ok?
    ensures Accumulate(Accumulate(previous, PointOf(result)).value, PointOf(result)) == Accumulate(previous, PointOf(result))
    ensures KeyOf(PointOf(result)).Some? && Belongs(previous, PointOf(result))
            ==> Belongs(Accumulate(previous, PointOf(result)).value, PointOf(result))
  {
    hide Covers, HasSamples;
    var point := PointOf(result);
    var next := Accumulate(previous, point).value;
    if next != previous && next != point {
      var runs := next.runs.value;
      assert runs[|runs| - 1] == point.runs.value[0];
    } else if next == point && point.protocol.Some? {
      assert point.runs.value[0].runId == result.runId;
    }
  }

  /** Publishing a result twice is publishing it once. */
  lemma UpdateIsIdempotent(history: seq<Point>, result: Result)
    requires |history| <= MAX_POINTS && UpdateHistory(history, PointOf(result)).Ok?
    ensures var once := UpdateHistory(history, PointOf(result));
            UpdateHistory(once.value, PointOf(result)) == once
  {
    hide Accumulate, Belongs;
    var point := PointOf(result);
    if KeyOf(point).Some? {
      var i := FindPoint(history, point);
      var once := UpdateHistory(history, point).value;
      if i < |history| {
        AccumulateAgain(history[i], result);
        FirstBelongs(once, point, i);
        assert once[i := once[i]] == once;
      } else {
        AddAgain(history, result);
      }
    }
  }

  lemma OwnPlace(result: Result)
    ensures Belongs(PointOf(result), PointOf(result)) && Accumulate(PointOf(result), PointOf(result)) == Ok(PointOf(result))
  {
    var point := PointOf(result);
    if point.protocol.Some? { assert point.runs.value[0].runId == result.runId; }
  }

  lemma AddAgain(history: seq<Point>, result: Result)
    requires |history| <= MAX_POINTS && KeyOf(PointOf(result)).Some? && FindPoint(history, PointOf(result)) == |history|
    ensures var once := Last(history + [PointOf(result)], MAX_POINTS);
            UpdateHistory(once, PointOf(result)) == Ok(once)
  {
    hide Belongs, Accumulate, KeyOf, FindPoint;
    var point := PointOf(result);
    var once := Last(history + [point], MAX_POINTS);
    OwnPlace(result);
    FirstBelongs(once, point, |once| - 1);
    assert once[|once| - 1 := point] == once;
  }

  /** No two points are filed alike. */
  predicate OnePointEach(history: seq<Point>) {
    forall i, j | 0 <= i < j < |history| :: KeyOf(history[i]) != KeyOf(history[j])
  }

  predicate Filed(history: seq<Point>, key: Option<HistoryKey>) { exists i | 0 <= i < |history| :: KeyOf(history[i]) == key }

  /** The run is among those of the point already, measured alike. */
  predicate Holds(saved: Point, result: Result) {
    && result.protocol.Some? && saved.protocol == result.protocol && saved.runs.Some?
    && saved.buildId == result.buildId && saved.engine == Some(result.engine) && saved.measurement == Some(result.measurement)
    && HasRun(saved.runs.value, result.runId)
  }

  /** A point filed otherwise is left as it is exactly when it holds the run. */
  lemma HeldIsLeft(saved: Point, result: Result)
    requires KeyOf(saved) != KeyOf(PointOf(result))
    ensures Accumulate(saved, PointOf(result)) == Ok(saved) <==> Holds(saved, result)
  {
    hide Covers, HasSamples;
  }

  /** The first point the result belongs to is one of its build without a commit, which does not hold its run yet. */
  predicate Relabels(history: seq<Point>, result: Result) {
    var point := PointOf(result);
    var i := FindPoint(history, point);
    KeyOf(point).Some? && i < |history| && KeyOf(history[i]) != KeyOf(point) && !Holds(history[i], result)
  }

  lemma AccumulatedKey(previous: Point, point: Point)
    requires Accumulate(previous, point).Ok? && Accumulate(previous, point) != Ok(previous)
    ensures KeyOf(Accumulate(previous, point).value) == KeyOf(point)
  {
    hide Covers, HasSamples;
  }

  /**
   * The history is meant to keep one point a commit. It does, unless a result relabels an earlier point of
   * its build while a later one has its commit.
   */
  lemma OnePointExactly(history: seq<Point>, result: Result)
    requires |history| <= MAX_POINTS && OnePointEach(history) && UpdateHistory(history, PointOf(result)).Ok?
    ensures OnePointEach(UpdateHistory(history, PointOf(result)).value)
      <==> !(Relabels(history, result) && Filed(history, KeyOf(PointOf(result))))
  {
    hide Accumulate, Belongs, Holds, KeyOf;
    var point := PointOf(result);
    if KeyOf(point).Some? {
      var i := FindPoint(history, point);
      var next := UpdateHistory(history, point).value;
      if i < |history| && KeyOf(history[i]) != KeyOf(point) { HeldIsLeft(history[i], result); }
      if i == |history| {
        NotFiled(history, point);
      } else if next[i] == history[i] {
        assert next == history;
      } else {
        AccumulatedKey(history[i], point);
        if Relabels(history, result) && Filed(history, KeyOf(point)) {
          var j :| 0 <= j < |history| && KeyOf(history[j]) == KeyOf(point);
          assert KeyOf(next[i]) == KeyOf(next[j]);
        }
      }
    }
  }

  lemma NotFiled(history: seq<Point>, point: Point)
    requires FindPoint(history, point) == |history|
    ensures !Filed(history, KeyOf(point))
  {}

  const SIX: seq<real> := [1.0, 1.0, 1.0, 1.0, 1.0, 1.0]
  const WORKLOAD := Key("files", "write", 100, false, 100)
  const ROWS := [Row(WORKLOAD, SIX, Some(SIX), None)]

  /** A result of build "b" from before results named their commit. */
  const UNLABELLED := Result(Some("p"), None, Some("d"), Some("b"), "run-1", "t1", "e", "m", ROWS, 1)

  /** A result of another build, "a", of commit "c". */
  const LABELLED := UNLABELLED.(commitHash := Some("c"), buildId := Some("a"), runId := "run-2", completedAt := "t2")

  /** Build "b" measured again, now known to be of commit "c". */
  const RELABELLED := UNLABELLED.(commitHash := Some("c"), runId := "run-3", completedAt := "t3")

  /** The history after the first two. */
  const EARLIER := [PointOf(UNLABELLED), PointOf(LABELLED)]

  /** Published in this order, the three results leave two points of commit "c". */
  lemma TwoPointsOfOneCommit()
    ensures UpdateHistory([], PointOf(UNLABELLED)) == Ok(EARLIER[..1])
    ensures UpdateHistory(EARLIER[..1], PointOf(LABELLED)) == Ok(EARLIER) && OnePointEach(EARLIER)
    ensures Relabels(EARLIER, RELABELLED) && Filed(EARLIER, Some(Commit("c")))
    ensures var last := UpdateHistory(EARLIER, PointOf(RELABELLED));
            last.Ok? && |last.value| == 2 && KeyOf(last.value[0]) == KeyOf(last.value[1]) == Some(Commit("c"))
  {
    var first, second, third := PointOf(UNLABELLED), PointOf(LABELLED), PointOf(RELABELLED);
    assert [] + [first] == EARLIER[..1] && EARLIER[..1] + [second] == EARLIER;
    FirstBelongs(EARLIER[..1], second, 1);
    FirstBelongs(EARLIER, third, 0);
    Relabelling();
    assert KeyOf(EARLIER[1]) == Some(Commit("c"));
  }

  /** The unlabelled point takes the new run and its commit. */
  lemma Relabelling()
    ensures var point := Accumulate(PointOf(UNLABELLED), PointOf(RELABELLED)); point.Ok? && KeyOf(point.value) == Some(Commit("c"))
  {
    var previous, point := PointOf(UNLABELLED), PointOf(RELABELLED);
    var runs := previous.runs.value + [point.runs.value[0]];
    assert Keys(ROWS) == [WORKLOAD] && FindKey(ROWS, WORKLOAD) == 0;
    assert Covers(runs, point.rows);
    assert runs[0].rows[FindKey(runs[0].rows, WORKLOAD)].samples == SIX;
    assert HasSamples(runs, point.rows);
    assert !HasRun(previous.runs.value, "run-3");
  }
}
