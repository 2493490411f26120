/** demo/benchmark-protocol.ts:48-89: samples of a run, merged workload by workload. */
module BenchmarkRows {
  import opened Sequences

  /** What identifies a workload (`rowKey`). */
  datatype Key = Key(group: string, operation: string, files: nat, cache: bool, iterations: nat)

  datatype Cost = Cost(statements: nat, rowsRead: nat, rowsWritten: nat)

  datatype Costs = Costs(reference: seq<Cost>, candidate: seq<Cost>)

  datatype Row = Row(key: Key, samples: seq<real>, reference: Option<seq<real>>, costs: Option<Costs>)

  /** The two sides of a comparison. */
  datatype Arm = Candidate | Reference

  function Samples(row: Row, arm: Arm): seq<real> {
    if arm == Candidate then row.samples else if row.reference.Some? then row.reference.value else []
  }

  predicate Distinct(rows: seq<Row>) {
    forall i, j | 0 <= i < j < |rows| :: rows[i].key != rows[j].key
  }

  function Keys(rows: seq<Row>): seq<Key> { seq(|rows|, i requires 0 <= i < |rows| => rows[i].key) }

  /** The first row of a workload, or the number of rows. */
  function FindKey(rows: seq<Row>, key: Key): (i: nat)
    ensures i <= |rows| && (i < |rows| ==> rows[i].key == key)
    ensures forall j | 0 <= j < i :: rows[j].key != key
  {
    if rows == [] || rows[0].key == key then 0 else FindKey(rows[1..], key) + 1
  }

  /** A row after the ones of its workload so far; costs stop where a row has none. */
  function After(prior: Option<Row>, row: Row): (r: Row)
    ensures r.key == row.key
  {
    var costs := if row.costs.None? then None
                 else
                   var before := if prior.Some? && prior.value.costs.Some? then prior.value.costs.value else Costs([], []);
                   Some(Costs(before.reference + row.costs.value.reference, before.candidate + row.costs.value.candidate));
    Row(row.key,
        (if prior.Some? then Samples(prior.value, Candidate) else []) + row.samples,
        Some((if prior.Some? then Samples(prior.value, Reference) else []) + Samples(row, Reference)),
        costs)
  }

  /** Costs follow those counted before them, on each side. */
  lemma CostsFollow(prior: Row, row: Row)
    requires prior.costs.Some? && row.costs.Some?
    ensures var costs := After(Some(prior), row).costs;
            && costs.Some? && prior.costs.value.reference <= costs.value.reference && prior.costs.value.candidate <= costs.value.candidate
            && costs.value.reference[|prior.costs.value.reference|..] == row.costs.value.reference
            && costs.value.candidate[|prior.costs.value.candidate|..] == row.costs.value.candidate
  {}

  function MergeOne(rows: seq<Row>, row: Row): seq<Row> {
    var i := FindKey(rows, row.key);
    if i == |rows| then rows + [After(None, row)] else rows[i := After(Some(rows[i]), row)]
  }

  function Merge(rows: seq<Row>, incoming: seq<Row>): seq<Row> {
    if incoming == [] then rows
    else MergeOne(Merge(rows, incoming[..|incoming| - 1]), incoming[|incoming| - 1])
  }

  method MergeRows(rows: seq<Row>, incoming: seq<Row>) returns (next: seq<Row>)
    ensures next == Merge(rows, incoming)
  {
    next := rows;
    for k := 0 to |incoming|
      invariant next == Merge(rows, incoming[..k])
    {
      var row := incoming[k];
      var index := 0;
      while index < |next| && next[index].key != row.key
        invariant index <= |next| && forall j | 0 <= j < index :: next[j].key != row.key
      {
        index := index + 1;
      }
      assert incoming[..k + 1][..k] == incoming[..k];
      FirstIsFound(next, row.key, index);
      if index == |next| {
        next := next + [After(None, row)];
      } else {
        next := next[index := After(Some(next[index]), row)];
      }
    }
    assert incoming[..|incoming|] == incoming;
  }

  lemma FirstIsFound(rows: seq<Row>, key: Key, i: nat)
    requires i <= |rows| && (i < |rows| ==> rows[i].key == key) && forall j | 0 <= j < i :: rows[j].key != key
    ensures FindKey(rows, key) == i
  {
    var f := FindKey(rows, key);
    if f < i { assert rows[f].key == key; }
  }

  /** Merging in two goes is merging everything at once. */
  lemma {:induction false} MergeTwice(rows: seq<Row>, a: seq<Row>, b: seq<Row>)
    ensures Merge(Merge(rows, a), b) == Merge(rows, a + b)
    decreases |b|
  {
    if b == [] {
      assert a + b == a;
    } else {
      var init := b[..|b| - 1];
      assert (a + b)[..|a + b| - 1] == a + init && (a + b)[|a + b| - 1] == b[|b| - 1];
      MergeTwice(rows, a, init);
    }
  }

  /** Every sample of a workload, in the order of the rows. */
  ghost function SamplesOf(rows: seq<Row>, key: Key, arm: Arm): seq<real> {
    if rows == [] then []
    else
      var last := rows[|rows| - 1];
      SamplesOf(rows[..|rows| - 1], key, arm) + if last.key == key then Samples(last, arm) else []
  }

  lemma SamplesOfOne(rows: seq<Row>, row: Row, key: Key, arm: Arm)
    ensures SamplesOf(rows + [row], key, arm) == SamplesOf(rows, key, arm) + if row.key == key then Samples(row, arm) else []
  {
    assert (rows + [row])[..|rows|] == rows;
  }

  /** With one row a workload, its samples are that row's. */
  lemma {:induction false} SamplesOfRow(rows: seq<Row>, key: Key, arm: Arm)
    requires Distinct(rows)
    ensures var i := FindKey(rows, key); SamplesOf(rows, key, arm) == if i < |rows| then Samples(rows[i], arm) else []
  {
    if rows != [] {
      var init, last := rows[..|rows| - 1], rows[|rows| - 1];
      SamplesOfRow(init, key, arm);
      assert init + [last] == rows;
      SamplesOfOne(init, last, key, arm);
      var i := FindKey(init, key);
      if last.key == key {
        assert rows[|init|].key == key;
        FirstIsFound(rows, key, |init|);
      } else {
        FirstIsFound(rows, key, if i < |init| then i else |rows|);
      }
    }
  }

  /** One row merged adds its samples to its workload and nothing to any other. */
  lemma MergeOneSamples(rows: seq<Row>, row: Row, key: Key, arm: Arm)
    requires Distinct(rows)
    ensures var next := MergeOne(rows, row);
            && Distinct(next)
            && SamplesOf(next, key, arm) == SamplesOf(rows, key, arm) + if row.key == key then Samples(row, arm) else []
  {
    hide SamplesOf, Samples, After;
    var next := MergeOne(rows, row);
    SamplesOfRow(rows, key, arm);
    SamplesOfRow(next, key, arm);
    var i := FindKey(rows, row.key);
    if key == row.key {
      FirstIsFound(next, key, i);
      AfterSamples(if i < |rows| then Some(rows[i]) else None, row, arm);
    } else {
      OtherIsFound(rows, row, key);
      assert SamplesOf(rows, key, arm) + [] == SamplesOf(rows, key, arm);
    }
  }

  lemma AfterSamples(prior: Option<Row>, row: Row, arm: Arm)
    ensures Samples(After(prior, row), arm) == (if prior.Some? then Samples(prior.value, arm) else []) + Samples(row, arm)
  {}

  /** Merging a row leaves the rows of other workloads where they are. */
  lemma OtherIsFound(rows: seq<Row>, row: Row, key: Key)
    requires key != row.key
    ensures var next := MergeOne(rows, row);
            var i, f := FindKey(next, key), FindKey(rows, key);
            if f < |rows| then i == f && next[i] == rows[f] else i == |next|
  {
    var next, f := MergeOne(rows, row), FindKey(rows, key);
    FirstIsFound(next, key, if f < |rows| then f else |next|);
  }

  /** Merging neither loses, repeats nor reorders a sample, and leaves one row a workload. */
  lemma {:induction false} MergeKeepsSamples(rows: seq<Row>, incoming: seq<Row>, key: Key, arm: Arm)
    requires Distinct(rows)
    ensures Distinct(Merge(rows, incoming))
    ensures SamplesOf(Merge(rows, incoming), key, arm) == SamplesOf(rows, key, arm) + SamplesOf(incoming, key, arm)
    decreases |incoming|
  {
    hide MergeOne;
    if incoming == [] {
      assert SamplesOf(rows, key, arm) + [] == SamplesOf(rows, key, arm);
    } else {
      var init, last := incoming[..|incoming| - 1], incoming[|incoming| - 1];
      MergeKeepsSamples(rows, init, key, arm);
      MergeOneSamples(Merge(rows, init), last, key, arm);
      Assoc(SamplesOf(rows, key, arm), SamplesOf(init, key, arm), if last.key == key then Samples(last, arm) else []);
    }
  }

  /** A round measures every workload once on each side. */
  ghost predicate IsRound(rows: seq<Row>, keys: seq<Key>) {
    Keys(rows) == keys && forall i | 0 <= i < |rows| :: |Samples(rows[i], Candidate)| == 1 && |Samples(rows[i], Reference)| == 1
  }

  /** Every workload has `n` samples on each side. */
  predicate Sampled(rows: seq<Row>, n: nat) {
    forall i | 0 <= i < |rows| :: |rows[i].samples| == n && rows[i].reference.Some? && |rows[i].reference.value| == n
  }

  predicate DistinctKeys(keys: seq<Key>) { forall i, j | 0 <= i < j < |keys| :: keys[i] != keys[j] }

  /** Part of a round on top of whole ones. */
  ghost predicate PartOfRound(rows: seq<Row>, keys: seq<Key>, n: nat, done: nat) {
    && done <= |keys|
    && Keys(rows) == (if n == 0 then keys[..done] else keys)
    && forall i | 0 <= i < |rows| ::
         var m := if i < done then n + 1 else n;
         |rows[i].samples| == m && rows[i].reference.Some? && |rows[i].reference.value| == m
  }

  lemma {:induction false} PartMerges(rows: seq<Row>, round: seq<Row>, keys: seq<Key>, n: nat, done: nat)
    requires DistinctKeys(keys) && IsRound(round, keys) && done <= |round| && PartOfRound(rows, keys, n, 0)
    ensures PartOfRound(Merge(rows, round[..done]), keys, n, done)
    decreases done
  {
    hide PartOfRound, MergeOne, DistinctKeys, IsRound;
    if done > 0 {
      var before := Merge(rows, round[..done - 1]);
      RoundRow(round, keys, done - 1);
      PartMerges(rows, round, keys, n, done - 1);
      assert round[..done][..done - 1] == round[..done - 1];
      PartMergesOne(before, round[done - 1], keys, n, done - 1);
    }
  }

  lemma RoundRow(round: seq<Row>, keys: seq<Key>, i: nat)
    requires IsRound(round, keys) && i < |round|
    ensures i < |keys| && round[i].key == keys[i]
    ensures |Samples(round[i], Candidate)| == 1 && |Samples(round[i], Reference)| == 1
  {
    assert Keys(round)[i] == round[i].key;
  }

  lemma PartMergesOne(rows: seq<Row>, row: Row, keys: seq<Key>, n: nat, done: nat)
    requires DistinctKeys(keys) && PartOfRound(rows, keys, n, done) && done < |keys| && row.key == keys[done]
    requires |Samples(row, Candidate)| == 1 && |Samples(row, Reference)| == 1
    ensures PartOfRound(MergeOne(rows, row), keys, n, done + 1)
  {
    forall j | 0 <= j < |rows| ensures rows[j].key == keys[j] { assert Keys(rows)[j] == rows[j].key; }
    FirstIsFound(rows, row.key, done);
    var next := MergeOne(rows, row);
    if n == 0 { assert keys[..done + 1] == keys[..done] + [keys[done]]; }
    assert Keys(next) == if n == 0 then keys[..done + 1] else keys;
  }

  /** A whole round gives every workload one more sample. */
  lemma RoundMerges(rows: seq<Row>, round: seq<Row>, keys: seq<Key>, n: nat)
    requires DistinctKeys(keys) && IsRound(round, keys) && Sampled(rows, n) && Keys(rows) == if n == 0 then [] else keys
    ensures Sampled(Merge(rows, round), n + 1) && Keys(Merge(rows, round)) == keys
  {
    assert |round| == |keys|;
    if n == 0 { assert |Keys(rows)| == 0; }
    PartMerges(rows, round, keys, n, |keys|);
    assert round[..|keys|] == round;
    assert |Keys(Merge(rows, round))| == |Merge(rows, round)|;
    assert keys[..|keys|] == keys;
  }
}
