/** The two programs end to end: validate the command line, load the
    points, run the restarts and report the best one. The sequential
    program runs every loop as one pass; the OpenMP program splits the
    point loops by a static partition among its workers. */
module Programs {
  import opened Config
  import opened Geometry
  import opened Steps
  import opened Refinement
  import opened Engine

  /** What a run reports: the best restart (-1 when no restart beat
      FltMax), its accuracy, the iteration count of the best restart (only
      the OpenMP program tracks it), the saved best centroids, and the
      iteration total over all restarts (printed by the sequential program
      only; the OpenMP program counts it for its timing averages). */
  datatype Summary = Summary(
    bestRestart: int,
    bestAcc: real,
    bestIters: Option<int>,
    centroids: seq<Vector>,
    totalIters: nat)

  /** `s` is the report of `restarts` restarts with k clusters over
      `points`: the running best of the restart accuracies, the centroids
      that restart ended with, and the sum of the iteration counts. */
  ghost predicate Reports(s: Summary, sqrt: real -> real, points: seq<Vector>, k: nat, restarts: nat, rand: nat -> nat)
    requires |points| >= 1 && AllPoints(points) && k >= 1
  {
    var b := Track(Accs(sqrt, points, k, rand, restarts));
    s.bestRestart == b.restart && s.bestAcc == b.acc &&
    s.totalIters == TotalIters(points, k, rand, restarts) &&
    |s.centroids| == k &&
    (b.restart >= 0 ==> s.centroids == RestartOutcome(points, k, rand, b.restart).cents)
  }

  /** Two reports of the same restarts agree on everything but the best
      restart's iteration count: the OpenMP program, whatever its
      partition, reports what the sequential one reports. */
  lemma ReportsAgree(s: Summary, t: Summary, sqrt: real -> real, points: seq<Vector>, k: nat,
                     restarts: nat, rand: nat -> nat)
    requires |points| >= 1 && AllPoints(points) && k >= 1
    requires Reports(s, sqrt, points, k, restarts, rand) && Reports(t, sqrt, points, k, restarts, rand)
    ensures s.bestRestart == t.bestRestart && s.bestAcc == t.bestAcc && s.totalIters == t.totalIters
    ensures s.bestRestart >= 0 ==> s.centroids == t.centroids
  {
  }

  /** The sequential program on the loaded `points`: a rejected command
      line reports its error and runs nothing; otherwise the restarts run
      with one pass per loop. */
  method RunSeq(sqrt: real -> real, points: seq<Vector>, k: int, restartsArg: Option<int>, rand: nat -> nat)
    returns (r: Result<Summary, ConfigError>)
    requires IsSqrt(sqrt) && 1 <= |points| <= MaxPoints && AllPoints(points)
    ensures r.Err? <==> ValidateSeq(k, restartsArg).Err?
    ensures r.Err? ==> r.error == ValidateSeq(k, restartsArg).error
    ensures r.Ok? ==> r.value.bestIters.None?
    ensures r.Ok? ==> Reports(r.value, sqrt, points, k, ValidateSeq(k, restartsArg).value, rand)
  {
    var v := ValidateSeq(k, restartsArg);
    if v.Err? {
      return Err(v.error);
    }
    var state := new KMeans(points);
    var best, _, total := state.RunRestarts(sqrt, k, v.value, rand, Sequential);
    r := Ok(Summary(best.restart, best.acc, None, state.bestCentroids[..k], total));
  }

  /** The OpenMP program on the loaded `points`, its point loops split by
      the static partition `bounds`: a rejected command line reports its
      error; otherwise the restarts run and the best restart's iteration
      count is reported too. */
  method RunOmp(sqrt: real -> real, points: seq<Vector>, k: int, restartsArg: Option<int>, rand: nat -> nat,
                bounds: seq<int>)
    returns (r: Result<Summary, ConfigError>)
    requires IsSqrt(sqrt) && 1 <= |points| <= MaxPoints && AllPoints(points)
    requires IsPartition(bounds, |points|)
    ensures r.Err? <==> ValidateOmp(k, restartsArg).Err?
    ensures r.Err? ==> r.error == ValidateOmp(k, restartsArg).error
    ensures r.Ok? ==>
      var restarts := ValidateOmp(k, restartsArg).value;
      Reports(r.value, sqrt, points, k, restarts, rand) &&
      r.value.bestIters == Some(BestIters(Track(Accs(sqrt, points, k, rand, restarts)), Iters(points, k, rand, restarts)))
  {
    var v := ValidateOmp(k, restartsArg);
    if v.Err? {
      return Err(v.error);
    }
    var state := new KMeans(points);
    var best, bestIters, total := state.RunRestarts(sqrt, k, v.value, rand, Static(bounds));
    r := Ok(Summary(best.restart, best.acc, Some(bestIters), state.bestCentroids[..k], total));
  }
}
