/** demo/benchmark-protocol.ts:32-37 and demo/benchmark-task-runner.ts: the groups a run measures, and what they add up to. */
module BenchmarkPlan {
  import opened Sequences
  import opened BenchmarkRows
  import opened BenchmarkStorage

  /** What measuring the plan's group at an index returned. */
  datatype Group = Group(index: nat, rows: seq<Row>, verified: nat, diagnostics: Diagnostics)

  ghost function AllRows(groups: seq<Group>): seq<Row> {
    if groups == [] then [] else AllRows(groups[..|groups| - 1]) + groups[|groups| - 1].rows
  }

  /** The groups fall into `n` rounds of every workload, after any number that measure nothing. */
  ghost predicate Measured(groups: seq<Group>, keys: seq<Key>, n: nat)
    decreases n
  {
    if n == 0 then AllRows(groups) == []
    else exists m | 0 <= m <= |groups| :: Measured(groups[..m], keys, n - 1) && IsRound(AllRows(groups[m..]), keys)
  }

  lemma {:induction false} AllRowsSplit(groups: seq<Group>, m: nat)
    requires m <= |groups|
    ensures AllRows(groups) == AllRows(groups[..m]) + AllRows(groups[m..])
    decreases |groups|
  {
    if m == |groups| {
      assert groups[..m] == groups && AllRows(groups[m..]) == [];
    } else {
      var init := groups[..|groups| - 1];
      AllRowsSplit(init, m);
      assert init[..m] == groups[..m] && groups[m..][..|groups| - m - 1] == init[m..];
    }
  }

  lemma NothingMerged()
    ensures Merge([], []) == [] && Sampled([], 0) && Keys([]) == []
  {}

  /** After `n` rounds every workload has one row with `n` samples on each side. */
  lemma {:induction false} RoundsComplete(groups: seq<Group>, keys: seq<Key>, n: nat)
    requires DistinctKeys(keys) && Measured(groups, keys, n)
    ensures var rows := Merge([], AllRows(groups)); Sampled(rows, n) && Keys(rows) == if n == 0 then [] else keys
    decreases n
  {
    hide IsRound, Sampled, DistinctKeys, Keys, Merge, AllRows;
    if n == 0 {
      NothingMerged();
    } else {
      var m :| 0 <= m <= |groups| && Measured(groups[..m], keys, n - 1) && IsRound(AllRows(groups[m..]), keys);
      RoundsComplete(groups[..m], keys, n - 1);
      AllRowsSplit(groups, m);
      MergeTwice([], AllRows(groups[..m]), AllRows(groups[m..]));
      RoundMerges(Merge([], AllRows(groups[..m])), AllRows(groups[m..]), keys, n - 1);
    }
  }

  /** One group of the plan: its round, counted from the warmup's -1, and the workloads it measures. */
  datatype Item = Item(pair: int, group: nat, workloads: seq<Key>)

  function Round(groups: seq<seq<Key>>, round: nat): seq<Item> {
    seq(|groups|, g requires 0 <= g < |groups| => Item(round - WARMUP_PAIRS, g, groups[g]))
  }

  function Rounds(groups: seq<seq<Key>>, n: nat): seq<Item> {
    if n == 0 then [] else Rounds(groups, n - 1) + Round(groups, n - 1)
  }

  function PairedPlan(groups: seq<seq<Key>>): seq<Item> { Rounds(groups, PAIRS_PER_RUN + WARMUP_PAIRS) }

  /** The rows a whole run of a plan should have: those of its first measured round. */
  function RowsExpected(plan: seq<Item>): nat {
    if plan == [] then 0
    else
      var last := plan[|plan| - 1];
      RowsExpected(plan[..|plan| - 1]) + if last.pair == 0 then |last.workloads| else 0
  }

  ghost function Workloads(groups: seq<seq<Key>>): seq<Key> {
    if groups == [] then [] else Workloads(groups[..|groups| - 1]) + groups[|groups| - 1]
  }

  /** A warmup group returns no rows, a measured one a row with one sample on each side for every workload. */
  ghost predicate FollowsItem(group: Group, item: Item) {
    if item.pair < 0 then group.rows == [] else IsRound(group.rows, item.workloads)
  }

  ghost predicate Follows(groups: seq<Group>, plan: seq<Item>) {
    |groups| == |plan| && forall i | 0 <= i < |groups| :: FollowsItem(groups[i], plan[i])
  }

  lemma NothingMeasured()
    ensures IsRound([], []) && AllRows([]) == [] && RowsExpected([]) == 0
  {}

  lemma RoundsJoin(a: seq<Row>, b: seq<Row>, left: seq<Key>, right: seq<Key>)
    requires IsRound(a, left) && IsRound(b, right)
    ensures IsRound(a + b, left + right)
  {
    assert Keys(a + b) == Keys(a) + Keys(b);
  }

  /** The groups of one round measure all the workloads once, or nothing while warming up. */
  lemma {:induction false} RoundFollowed(measured: seq<Group>, groups: seq<seq<Key>>, round: nat)
    requires Follows(measured, Round(groups, round))
    ensures if round < WARMUP_PAIRS then AllRows(measured) == [] else IsRound(AllRows(measured), Workloads(groups))
  {
    hide IsRound;
    if groups == [] {
      NothingMeasured();
    } else {
      var n := |groups| - 1;
      assert Round(groups, round)[..n] == Round(groups[..n], round);
      RoundFollowed(measured[..n], groups[..n], round);
      assert FollowsItem(measured[n], Round(groups, round)[n]);
      if round >= WARMUP_PAIRS { RoundsJoin(AllRows(measured[..n]), measured[n].rows, Workloads(groups[..n]), groups[n]); }
    }
  }

  lemma {:induction false} RoundsFollowed(measured: seq<Group>, groups: seq<seq<Key>>, n: nat)
    requires Follows(measured, Rounds(groups, n))
    ensures if n <= WARMUP_PAIRS then AllRows(measured) == [] else Measured(measured, Workloads(groups), n - WARMUP_PAIRS)
    decreases n
  {
    hide IsRound, AllRows, Workloads, FollowsItem;
    if n == 0 {
      NothingMeasured();
    } else {
      var m := |Rounds(groups, n - 1)|;
      RoundsFollowed(measured[..m], groups, n - 1);
      RoundFollowed(measured[m..], groups, n - 1);
      AllRowsSplit(measured, m);
    }
  }

  lemma {:induction false} ExpectedSplit(a: seq<Item>, b: seq<Item>)
    ensures RowsExpected(a + b) == RowsExpected(a) + RowsExpected(b)
    decreases |b|
  {
    if b == [] {
      assert a + b == a;
    } else {
      assert (a + b)[..|a + b| - 1] == a + b[..|b| - 1];
      ExpectedSplit(a, b[..|b| - 1]);
    }
  }

  lemma {:induction false} ExpectedOfRound(groups: seq<seq<Key>>, round: nat)
    ensures RowsExpected(Round(groups, round)) == if round == WARMUP_PAIRS then |Workloads(groups)| else 0
  {
    if groups != [] {
      var n := |groups| - 1;
      assert Round(groups, round)[..n] == Round(groups[..n], round);
      ExpectedOfRound(groups[..n], round);
    }
  }

  lemma {:induction false} ExpectedOfRounds(groups: seq<seq<Key>>, n: nat)
    ensures RowsExpected(Rounds(groups, n)) == if n <= WARMUP_PAIRS then 0 else |Workloads(groups)|
  {
    hide Round, Workloads, RowsExpected;
    if n > 0 {
      ExpectedOfRounds(groups, n - 1);
      ExpectedOfRound(groups, n - 1);
      ExpectedSplit(Rounds(groups, n - 1), Round(groups, n - 1));
    } else {
      NothingMeasured();
    }
  }

  /** Groups that follow the whole plan merge into as many rows as are expected, each with a full set of samples. */
  lemma PlanCompletes(measured: seq<Group>, groups: seq<seq<Key>>)
    requires DistinctKeys(Workloads(groups)) && Follows(measured, PairedPlan(groups))
    ensures var rows := Merge([], AllRows(measured));
            && Sampled(rows, PAIRS_PER_RUN) && Keys(rows) == Workloads(groups)
            && |rows| == RowsExpected(PairedPlan(groups))
  {
    hide Sampled, Merge, AllRows, Workloads, DistinctKeys, Follows, Rounds;
    RoundsFollowed(measured, groups, PAIRS_PER_RUN + WARMUP_PAIRS);
    RoundsComplete(measured, Workloads(groups), PAIRS_PER_RUN);
    ExpectedOfRounds(groups, PAIRS_PER_RUN + WARMUP_PAIRS);
  }

  const TASK_WORKLOAD := Key("agent-task", "cycle", 1000, false, 1)
  const TASK_GROUPS := PAIRS_PER_RUN + WARMUP_PAIRS

  /** What a run measures: the suite's groups of workloads, or the agent task. */
  function GroupsOf(suite: seq<seq<Key>>, task: bool): seq<seq<Key>> { if task then [[TASK_WORKLOAD]] else suite }

  /** The number of groups in a run. */
  function Total(suite: seq<seq<Key>>, task: bool): nat { if task then TASK_GROUPS else |PairedPlan(suite)| }

  /** The number of rows in a whole run. */
  function Expected(suite: seq<seq<Key>>, task: bool): nat { if task then 1 else RowsExpected(PairedPlan(suite)) }

  lemma {:induction false} RoundsLength(groups: seq<seq<Key>>, n: nat)
    ensures |Rounds(groups, n)| == n * |groups|
  {
    if n > 0 { RoundsLength(groups, n - 1); }
  }

  /** The agent task's own counts are those of a plan with its one workload. */
  lemma CountsOfPlan(suite: seq<seq<Key>>, task: bool)
    ensures Total(suite, task) == |PairedPlan(GroupsOf(suite, task))|
    ensures Expected(suite, task) == RowsExpected(PairedPlan(GroupsOf(suite, task)))
  {
    if task {
      RoundsLength([[TASK_WORKLOAD]], TASK_GROUPS);
      ExpectedOfRounds([[TASK_WORKLOAD]], TASK_GROUPS);
      assert Workloads([[TASK_WORKLOAD]]) == [TASK_WORKLOAD];
    }
  }
}
