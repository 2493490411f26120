/** demo/benchmark-store.ts:360-387: what requests to run find, and which of them start a run. */
module BenchmarkClaims {
  import opened Sequences
  import opened BenchmarkHistory

  /** A run that has started, and whether it was asked for with the developer token. */
  datatype Claimed = Claimed(id: string, build: string, forced: bool)

  /** A request, with what it found: whether a run was live, and how many runs and results there had been. */
  datatype Request = Request(claim: Claimed, live: bool, runs: nat, results: nat)

  ghost predicate HasClaim(claims: seq<Claimed>, id: string) { exists i | 0 <= i < |claims| :: claims[i].id == id }

  /** A build had a run among the first `n`. */
  ghost predicate Ran(claims: seq<Claimed>, n: nat, build: string)
    requires n <= |claims|
  {
    exists i | 0 <= i < n :: claims[i].build == build
  }

  ghost predicate Within(r: Request, claims: seq<Claimed>, published: seq<Result>) {
    r.runs <= |claims| && r.results <= |published|
  }

  /** The last run then was of the request's own build. */
  ghost predicate RanLast(r: Request, claims: seq<Claimed>)
    requires r.runs <= |claims|
  {
    r.runs > 0 && claims[r.runs - 1].build == r.claim.build
  }

  /** The result then shown was of the request's own build. */
  ghost predicate Shown(r: Request, published: seq<Result>)
    requires r.results <= |published|
  {
    r.results > 0 && published[r.results - 1].buildId == Some(r.claim.build)
  }

  ghost predicate Starts(r: Request, claims: seq<Claimed>, published: seq<Result>)
    requires Within(r, claims, published)
  {
    !r.live && (r.claim.forced || (!RanLast(r, claims) && !Shown(r, published)))
  }

  ghost predicate Answered(r: Request, claims: seq<Claimed>, published: seq<Result>) {
    Within(r, claims, published) && (Starts(r, claims, published) ==> r.runs < |claims| && claims[r.runs] == r.claim)
  }

  ghost predicate Asked(asked: seq<Request>, k: nat, claims: seq<Claimed>, published: seq<Result>) {
    exists i | 0 <= i < |asked| :: Within(asked[i], claims, published) && Starts(asked[i], claims, published) && asked[i].runs == k
  }

  /** The requests, and the runs they started. */
  ghost predicate Recorded(asked: seq<Request>, claims: seq<Claimed>, published: seq<Result>) {
    && (forall i | 0 <= i < |asked| :: Answered(asked[i], claims, published))
    && (forall k | 0 <= k < |claims| :: Asked(asked, k, claims, published))
  }

  lemma RecordsOne(asked: seq<Request>, r: Request, claims: seq<Claimed>, published: seq<Result>)
    requires Recorded(asked, claims, published) && r.runs == |claims| && r.results <= |published|
    ensures Recorded(asked + [r], if Starts(r, claims, published) then claims + [r.claim] else claims, published)
  {
    var starts := Starts(r, claims, published);
    var more, after := asked + [r], if starts then claims + [r.claim] else claims;
    forall k | 0 <= k < |after| ensures Asked(more, k, after, published) {
      if k < |claims| {
        assert Asked(asked, k, claims, published);
        var i :| 0 <= i < |asked| && Within(asked[i], claims, published) && Starts(asked[i], claims, published) && asked[i].runs == k;
        assert more[i] == asked[i];
      } else {
        assert more[|asked|] == r;
      }
    }
  }

  lemma RecordsStay(asked: seq<Request>, claims: seq<Claimed>, published: seq<Result>, next: Result)
    requires Recorded(asked, claims, published)
    ensures Recorded(asked, claims, published + [next])
  {
    forall k | 0 <= k < |claims| ensures Asked(asked, k, claims, published + [next]) {
      assert Asked(asked, k, claims, published);
      var i :| 0 <= i < |asked| && Within(asked[i], claims, published) && Starts(asked[i], claims, published) && asked[i].runs == k;
      assert Starts(asked[i], claims, published + [next]);
    }
  }

  /** A build is run once, unless the developer token asks for more. */
  ghost predicate RunsOnce(claims: seq<Claimed>) {
    forall i, j | 0 <= i < j < |claims| && claims[i].build == claims[j].build :: claims[j].forced
  }

  /**
   * A public request for a build that has had a run, when nothing is running, another build was the last to run,
   * and the result shown is not its own.
   */
  ghost predicate Displaced(r: Request, claims: seq<Claimed>, published: seq<Result>)
    requires Within(r, claims, published)
  {
    !r.claim.forced && !r.live && Ran(claims, r.runs, r.claim.build) && !RanLast(r, claims) && !Shown(r, published)
  }

  ghost predicate NoneDisplaced(asked: seq<Request>, claims: seq<Claimed>, published: seq<Result>) {
    forall i | 0 <= i < |asked| :: Within(asked[i], claims, published) ==> !Displaced(asked[i], claims, published)
  }

  /**
   * Public requests are meant to cost one run a deployment, however often they come. They do, exactly as long as
   * none of them comes from a deployment that another one has displaced.
   */
  lemma RunsOnceExactly(asked: seq<Request>, claims: seq<Claimed>, published: seq<Result>)
    requires Recorded(asked, claims, published)
    ensures RunsOnce(claims) <==> NoneDisplaced(asked, claims, published)
  {
    hide RanLast, Shown;
    if !NoneDisplaced(asked, claims, published) {
      var j :| 0 <= j < |asked| && Within(asked[j], claims, published) && Displaced(asked[j], claims, published);
      assert Answered(asked[j], claims, published);
      var i :| 0 <= i < asked[j].runs && claims[i].build == asked[j].claim.build;
      assert claims[asked[j].runs] == asked[j].claim;
    }
    if !RunsOnce(claims) {
      var i, j :| 0 <= i < j < |claims| && claims[i].build == claims[j].build && !claims[j].forced;
      assert Asked(asked, j, claims, published);
      var k :| 0 <= k < |asked| && Within(asked[k], claims, published) && Starts(asked[k], claims, published) && asked[k].runs == j;
      assert Answered(asked[k], claims, published);
    }
  }

  /** Two runs of one build, the later asked for by the public, have a run of another build between them. */
  lemma AnotherBuildBetween(asked: seq<Request>, claims: seq<Claimed>, published: seq<Result>, i: nat, j: nat)
    requires Recorded(asked, claims, published)
    requires i < j < |claims| && claims[i].build == claims[j].build && !claims[j].forced
    ensures i < j - 1 && claims[j - 1].build != claims[j].build
  {
    assert Asked(asked, j, claims, published);
    var k :| 0 <= k < |asked| && Within(asked[k], claims, published) && Starts(asked[k], claims, published) && asked[k].runs == j;
    assert Answered(asked[k], claims, published);
  }

  const FIRST := Claimed("1", "a", false)
  const OTHER := Claimed("2", "b", false)
  const AGAIN := Claimed("3", "a", false)

  /** Deployments "a", "b" and "a" again answer a public request, each after the run before lost its lease. */
  const IN_TURN := [Request(FIRST, false, 0, 0), Request(OTHER, false, 1, 0), Request(AGAIN, false, 2, 0)]

  /** All three start a run, so "a" is run twice. */
  lemma DeploymentsInTurn()
    ensures Recorded(IN_TURN, [FIRST, OTHER, AGAIN], [])
    ensures Displaced(IN_TURN[2], [FIRST, OTHER, AGAIN], []) && !RunsOnce([FIRST, OTHER, AGAIN])
  {
    var claims := [FIRST, OTHER, AGAIN];
    assert claims[0].build == claims[2].build && !claims[2].forced;
    forall k | 0 <= k < |claims| ensures Asked(IN_TURN, k, claims, []) {
      assert IN_TURN[k].runs == k && Starts(IN_TURN[k], claims, []);
    }
  }
}
