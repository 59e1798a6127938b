/** The two programs' working state and their step routines: fixed-capacity
    buffers for the points, the labels, the centroids, the update
    accumulators and the best centroids, updated in place. The OpenMP
    routines are modelled by a static partition of the point range into
    chunks, one per worker, whose partial results are merged in worker order. */
module Engine {
  import opened Config
  import opened Geometry
  import opened Steps
  import opened Refinement

  /** How a loop over the points is split: one pass, or the chunks
      [bounds[w], bounds[w + 1]) of a static OpenMP schedule. */
  datatype Schedule = Sequential | Static(bounds: seq<int>)

  predicate Fits(schedule: Schedule, n: nat) {
    schedule.Static? ==> IsPartition(schedule.bounds, n)
  }

  class KMeans {
    /** Number of loaded points (n_points). */
    const n: nat
    /** The loaded points: written once by the loader, read-only afterwards. */
    const data: seq<Vector>
    const labels: array<int>
    const centroids: array<Vector>
    const newCentroids: array<Vector>
    const counts: array<int>
    const bestCentroids: array<Vector>

    ghost predicate Valid()
      reads centroids, newCentroids, bestCentroids
    {
      n <= MaxPoints && |data| == n && labels.Length == MaxPoints &&
      centroids.Length == MaxClusters && newCentroids.Length == MaxClusters &&
      counts.Length == MaxClusters && bestCentroids.Length == MaxClusters &&
      AllPoints(data) && AllPoints(centroids[..]) &&
      AllPoints(newCentroids[..]) && AllPoints(bestCentroids[..]) &&
      centroids != newCentroids && centroids != bestCentroids && newCentroids != bestCentroids &&
      labels != counts
    }

    /** The zero-initialised buffers of the program, holding the loaded points. */
    constructor (points: seq<Vector>)
      requires |points| <= MaxPoints && AllPoints(points)
      ensures Valid() && n == |points| && data == points
      ensures fresh(labels) && fresh(centroids) && fresh(newCentroids)
      ensures fresh(counts) && fresh(bestCentroids)
    {
      n := |points|;
      data := points;
      labels := new int[MaxPoints](_ => 0);
      centroids := new Vector[MaxClusters](_ => Zero());
      newCentroids := new Vector[MaxClusters](_ => Zero());
      counts := new int[MaxClusters](_ => 0);
      bestCentroids := new Vector[MaxClusters](_ => Zero());
    }

    /** The cluster of `p`: the first centroid at minimum distance. */
    method NearestCentroid(sqrt: real -> real, p: Vector, k: nat) returns (best: nat)
      requires Valid() && IsSqrt(sqrt) && IsPoint(p) && 1 <= k <= MaxClusters
      ensures best == Nearest(p, centroids[..k])
    {
      best := ScanNearest(sqrt, p, centroids[..k]);
      NearestByDistance(sqrt, p, centroids[..k]);
    }

    /** The body of the assignment loop for point i: its nearest centroid is
        written to its label only when it differs, and the change counter
        grows by one exactly then. `before` holds the labels as the loop
        found them and `next` the labels the loop is producing. */
    method AssignPoint(sqrt: real -> real, i: nat, k: nat, changes: nat,
                       ghost lo: nat, ghost before: seq<int>, ghost next: seq<int>) returns (changes': nat)
      requires Valid() && IsSqrt(sqrt) && lo <= i < n && 1 <= k <= MaxClusters
      requires |before| == n && next == Relabel(data, centroids[..k])
      requires labels[i] == before[i] && changes == Changed(before, next, lo, i)
      modifies labels
      ensures labels[i] == next[i]
      ensures changes' == Changed(before, next, lo, i + 1)
      ensures forall j :: 0 <= j < labels.Length && j != i ==> labels[j] == old(labels[j])
    {
      var best := NearestCentroid(sqrt, data[i], k);
      ChangedStep(before, next, lo, i);
      changes' := changes;
      if labels[i] != best {
        labels[i] := best;
        changes' := changes + 1;
      }
    }

    /** The assignment loop over the points [lo, hi): each gets its nearest
        centroid, and every label that changes is counted. */
    method AssignRange(sqrt: real -> real, lo: nat, hi: nat, k: nat) returns (changes: nat)
      requires Valid() && IsSqrt(sqrt) && lo <= hi <= n && 1 <= k <= MaxClusters
      modifies labels
      ensures forall i :: lo <= i < hi ==> labels[i] == Relabel(data, centroids[..k])[i]
      ensures forall i :: 0 <= i < labels.Length && !(lo <= i < hi) ==> labels[i] == old(labels[i])
      ensures changes == Changed(old(labels[..n]), Relabel(data, centroids[..k]), lo, hi)
    {
      ghost var next := Relabel(data, centroids[..k]);
      ghost var before := labels[..n];
      changes := 0;
      var i := lo;
      while i < hi
        invariant lo <= i <= hi
        invariant forall j :: lo <= j < i ==> labels[j] == next[j]
        invariant forall j :: 0 <= j < lo || i <= j < labels.Length ==> labels[j] == old(labels[j])
        invariant changes == Changed(before, next, lo, i)
      {
        changes := AssignPoint(sqrt, i, k, changes, lo, before, next);
        i := i + 1;
      }
    }

    /** The sequential assignment step. */
    method AssignPointsSeq(sqrt: real -> real, k: nat) returns (changes: nat)
      requires Valid() && IsSqrt(sqrt) && 1 <= k <= MaxClusters
      modifies labels
      ensures labels[..n] == Relabel(data, centroids[..k])
      ensures forall i :: n <= i < labels.Length ==> labels[i] == old(labels[i])
      ensures changes == Changed(old(labels[..n]), labels[..n], 0, n)
    {
      changes := AssignRange(sqrt, 0, n, k);
    }

    /** The OpenMP assignment step: each worker assigns its chunk, and the
        per-worker change counts are summed (the `+` reduction). */
    method AssignPointsOmp(sqrt: real -> real, k: nat, bounds: seq<int>) returns (changes: nat)
      requires Valid() && IsSqrt(sqrt) && 1 <= k <= MaxClusters && IsPartition(bounds, n)
      modifies labels
      ensures labels[..n] == Relabel(data, centroids[..k])
      ensures forall i :: n <= i < labels.Length ==> labels[i] == old(labels[i])
      ensures changes == Changed(old(labels[..n]), labels[..n], 0, n)
    {
      ghost var next := Relabel(data, centroids[..k]);
      ghost var before := labels[..n];
      changes := 0;
      var w := 0;
      while w < |bounds| - 1
        invariant 0 <= w <= |bounds| - 1
        invariant 0 <= bounds[w] <= n
        invariant forall j :: 0 <= j < bounds[w] ==> labels[j] == next[j]
        invariant forall j :: bounds[w] <= j < labels.Length ==> labels[j] == old(labels[j])
        invariant changes == Changed(before, next, 0, bounds[w])
      {
        assert bounds[w] <= bounds[w + 1] <= bounds[|bounds| - 1];
        ghost var current := labels[..n];
        var part := AssignRange(sqrt, bounds[w], bounds[w + 1], k);
        ChangedAgree(current, before, next, bounds[w], bounds[w + 1]);
        ChangedSplit(before, next, 0, bounds[w], bounds[w + 1]);
        changes := changes + part;
        w := w + 1;
      }
      ChangedAgree(before, old(labels[..n]), next, 0, n);
    }

    /** Zero the global counts and sums of the first k clusters. */
    method ResetAccumulators(k: nat)
      requires Valid() && k <= MaxClusters
      modifies counts, newCentroids
      ensures Valid()
      ensures forall c :: 0 <= c < k ==> counts[c] == 0 && newCentroids[c] == Zero()
      ensures forall c :: k <= c < MaxClusters ==> counts[c] == old(counts[c]) && newCentroids[c] == old(newCentroids[c])
    {
      var c := 0;
      while c < k
        invariant 0 <= c <= k && Valid()
        invariant forall d :: 0 <= d < c ==> counts[d] == 0 && newCentroids[d] == Zero()
        invariant forall d :: c <= d < MaxClusters ==> counts[d] == old(counts[d]) && newCentroids[d] == old(newCentroids[d])
      {
        counts[c] := 0;
        newCentroids[c] := Zero();
        c := c + 1;
      }
    }

    /** The accumulation loop over the points [lo, hi) into zeroed sums and
        counts: each point adds one to its cluster's count and its features
        to its cluster's sum. */
    method Accumulate(sums: array<Vector>, cnts: array<int>, lo: nat, hi: nat, k: nat)
      requires Valid() && lo <= hi <= n && 1 <= k <= MaxClusters && LabelsIn(labels[..n], k)
      requires sums.Length == MaxClusters && cnts.Length == MaxClusters
      requires cnts != labels
      requires forall c :: 0 <= c < k ==> sums[c] == Zero() && cnts[c] == 0
      modifies sums, cnts
      ensures forall c :: 0 <= c < k ==>
        cnts[c] == MemberCount(labels[..n], c, lo, hi) &&
        sums[c] == MemberSum(data, labels[..n], c, lo, hi)
      ensures forall c :: k <= c < MaxClusters ==> sums[c] == old(sums[c]) && cnts[c] == old(cnts[c])
    {
      ghost var ls := labels[..n];
      var i := lo;
      while i < hi
        invariant lo <= i <= hi
        invariant labels[..n] == ls
        invariant forall c :: 0 <= c < k ==>
          cnts[c] == MemberCount(ls, c, lo, i) && sums[c] == MemberSum(data, ls, c, lo, i)
        invariant forall c :: k <= c < MaxClusters ==> sums[c] == old(sums[c]) && cnts[c] == old(cnts[c])
      {
        var c := labels[i];
        assert ls[i] == c;
        cnts[c] := cnts[c] + 1;
        sums[c] := VecAdd(sums[c], data[i]);
        i := i + 1;
      }
    }

    /** The critical section of the OpenMP update: one worker's counts and
        sums are added to the global ones. */
    method MergeInto(localSums: array<Vector>, localCounts: array<int>, k: nat)
      requires Valid() && k <= MaxClusters
      requires localSums.Length == MaxClusters && localCounts.Length == MaxClusters
      requires localSums != newCentroids && localCounts != counts
      requires forall c :: 0 <= c < k ==> |localSums[c]| == Features
      requires forall c :: 0 <= c < k ==> |newCentroids[c]| == Features
      modifies counts, newCentroids
      ensures Valid()
      ensures forall c :: 0 <= c < k ==>
        counts[c] == old(counts[c]) + localCounts[c] &&
        newCentroids[c] == VecAdd(old(newCentroids[c]), localSums[c])
      ensures forall c :: k <= c < MaxClusters ==> counts[c] == old(counts[c]) && newCentroids[c] == old(newCentroids[c])
    {
      var c := 0;
      while c < k
        invariant 0 <= c <= k && Valid()
        invariant forall d :: 0 <= d < c ==>
          counts[d] == old(counts[d]) + localCounts[d] &&
          newCentroids[d] == VecAdd(old(newCentroids[d]), localSums[d])
        invariant forall d :: c <= d < MaxClusters ==> counts[d] == old(counts[d]) && newCentroids[d] == old(newCentroids[d])
      {
        assert IsPoint(newCentroids[..][c]);
        counts[c] := counts[c] + localCounts[c];
        newCentroids[c] := VecAdd(newCentroids[c], localSums[c]);
        c := c + 1;
      }
    }

    /** The division loop: a cluster with members moves to the mean of its
        members; a cluster without members keeps its centroid. */
    method ApplyMeans(k: nat)
      requires Valid() && 1 <= k <= MaxClusters
      requires forall c :: 0 <= c < k ==>
        counts[c] == MemberCount(labels[..n], c, 0, n) &&
        newCentroids[c] == MemberSum(data, labels[..n], c, 0, n)
      modifies centroids
      ensures Valid()
      ensures centroids[..k] == UpdateCents(data, labels[..n], old(centroids[..k]))
      ensures forall c :: k <= c < MaxClusters ==> centroids[c] == old(centroids[c])
    {
      ghost var goal := UpdateCents(data, labels[..n], centroids[..k]);
      var c := 0;
      while c < k
        invariant 0 <= c <= k && Valid()
        invariant forall d :: 0 <= d < c ==> centroids[d] == goal[d]
        invariant forall d :: c <= d < MaxClusters ==> centroids[d] == old(centroids[d])
      {
        if counts[c] != 0 {
          centroids[c] := Mean(newCentroids[c], counts[c]);
        }
        c := c + 1;
      }
      assert centroids[..k] == goal;
    }

    /** The sequential update step. */
    method UpdateCentroidsSeq(k: nat)
      requires Valid() && 1 <= k <= MaxClusters && LabelsIn(labels[..n], k)
      modifies centroids, newCentroids, counts
      ensures Valid()
      ensures forall c :: 0 <= c < k ==>
        counts[c] == MemberCount(labels[..n], c, 0, n) &&
        newCentroids[c] == MemberSum(data, labels[..n], c, 0, n)
      ensures forall c :: k <= c < MaxClusters ==> counts[c] == old(counts[c]) && newCentroids[c] == old(newCentroids[c])
      ensures Total(counts[..k]) == n
      ensures centroids[..k] == UpdateCents(data, labels[..n], old(centroids[..k]))
      ensures forall c :: k <= c < MaxClusters ==> centroids[c] == old(centroids[c])
    {
      ResetAccumulators(k);
      Accumulate(newCentroids, counts, 0, n, k);
      assert AllPoints(newCentroids[..]);
      ApplyMeans(k);
      CountTableTotal(counts[..], labels[..n], k);
    }

    /** The OpenMP update step: each worker accumulates its chunk into
        private zeroed counts and sums, which are then merged into the global
        ones; the means are taken after all workers are merged. */
    method UpdateCentroidsOmp(k: nat, bounds: seq<int>)
      requires Valid() && 1 <= k <= MaxClusters && LabelsIn(labels[..n], k) && IsPartition(bounds, n)
      modifies centroids, newCentroids, counts
      ensures Valid()
      ensures forall c :: 0 <= c < k ==>
        counts[c] == MemberCount(labels[..n], c, 0, n) &&
        newCentroids[c] == MemberSum(data, labels[..n], c, 0, n)
      ensures forall c :: k <= c < MaxClusters ==> counts[c] == old(counts[c]) && newCentroids[c] == old(newCentroids[c])
      ensures Total(counts[..k]) == n
      ensures centroids[..k] == UpdateCents(data, labels[..n], old(centroids[..k]))
      ensures forall c :: k <= c < MaxClusters ==> centroids[c] == old(centroids[c])
    {
      ResetAccumulators(k);
      ghost var ls := labels[..n];
      var w := 0;
      while w < |bounds| - 1
        invariant 0 <= w <= |bounds| - 1
        invariant 0 <= bounds[w] <= n
        invariant Valid() && labels[..n] == ls
        invariant centroids[..] == old(centroids[..])
        invariant forall c :: 0 <= c < k ==>
          counts[c] == MemberCount(ls, c, 0, bounds[w]) &&
          newCentroids[c] == MemberSum(data, ls, c, 0, bounds[w])
        invariant forall c :: k <= c < MaxClusters ==> counts[c] == old(counts[c]) && newCentroids[c] == old(newCentroids[c])
      {
        assert bounds[w] <= bounds[w + 1] <= bounds[|bounds| - 1];
        var localCounts := new int[MaxClusters](_ => 0);
        var localSums := new Vector[MaxClusters](_ => Zero());
        Accumulate(localSums, localCounts, bounds[w], bounds[w + 1], k);
        MergeInto(localSums, localCounts, k);
        forall c | 0 <= c < k
          ensures counts[c] == MemberCount(ls, c, 0, bounds[w + 1])
          ensures newCentroids[c] == MemberSum(data, ls, c, 0, bounds[w + 1])
        {
          MemberCountSplit(ls, c, 0, bounds[w], bounds[w + 1]);
          MemberSumSplit(data, ls, c, 0, bounds[w], bounds[w + 1]);
        }
        w := w + 1;
      }
      ApplyMeans(k);
      CountTableTotal(counts[..], labels[..n], k);
    }

    /** The accuracy loop over the points [lo, hi): the sum of each point's
        distance to its assigned centroid. */
    method AccuracyRange(sqrt: real -> real, lo: nat, hi: nat, k: nat) returns (total: real)
      requires Valid() && lo <= hi <= n && 1 <= k <= MaxClusters && LabelsIn(labels[..n], k)
      ensures total == TotalDist(sqrt, data, labels[..n], centroids[..k], lo, hi)
    {
      total := 0.0;
      var i := lo;
      while i < hi
        invariant lo <= i <= hi
        invariant total == TotalDist(sqrt, data, labels[..n], centroids[..k], lo, i)
      {
        var c := labels[i];
        assert labels[..n][i] == c;
        assert IsPoint(data[i]) && IsPoint(centroids[..][c]);
        var d := DistancePt(sqrt, data[i], centroids[c]);
        total := total + d;
        i := i + 1;
      }
    }

    /** The sequential accuracy: the total distance divided by n. */
    method ComputeAccuracySeq(sqrt: real -> real, k: nat) returns (acc: real)
      requires Valid() && 1 <= n && 1 <= k <= MaxClusters && LabelsIn(labels[..n], k)
      ensures acc == Accuracy(sqrt, data, labels[..n], centroids[..k])
    {
      var total := AccuracyRange(sqrt, 0, n, k);
      acc := total / n as real;
    }

    /** The OpenMP accuracy: per-worker partial totals are summed (the `+`
        reduction), then divided by n. */
    method ComputeAccuracyOmp(sqrt: real -> real, k: nat, bounds: seq<int>) returns (acc: real)
      requires Valid() && 1 <= n && 1 <= k <= MaxClusters && LabelsIn(labels[..n], k)
      requires IsPartition(bounds, n)
      ensures acc == Accuracy(sqrt, data, labels[..n], centroids[..k])
    {
      var total := 0.0;
      var w := 0;
      while w < |bounds| - 1
        invariant 0 <= w <= |bounds| - 1
        invariant 0 <= bounds[w] <= n
        invariant total == TotalDist(sqrt, data, labels[..n], centroids[..k], 0, bounds[w])
      {
        assert bounds[w] <= bounds[w + 1] <= bounds[|bounds| - 1];
        var part := AccuracyRange(sqrt, bounds[w], bounds[w + 1], k);
        TotalDistSplit(sqrt, data, labels[..n], centroids[..k], 0, bounds[w], bounds[w + 1]);
        total := total + part;
        w := w + 1;
      }
      acc := total / n as real;
    }

    /** Every point back to unassigned (-1) before a restart. */
    method ResetLabels()
      requires Valid()
      modifies labels
      ensures labels[..n] == Reset(n)
      ensures forall i :: n <= i < labels.Length ==> labels[i] == old(labels[i])
    {
      var i := 0;
      while i < n
        invariant 0 <= i <= n
        invariant forall j :: 0 <= j < labels.Length ==> labels[j] == if j < i then -1 else old(labels[j])
      {
        labels[i] := -1;
        i := i + 1;
      }
    }

    /** Seed the first k centroids from points chosen by `rand`, consuming
        calls base .. base + k - 1 of the stream. */
    method InitCentroids(k: nat, rand: nat -> nat, base: nat)
      requires Valid() && 1 <= n && k <= MaxClusters
      modifies centroids
      ensures Valid()
      ensures centroids[..k] == Seed(data, k, rand, base)
      ensures forall c :: k <= c < MaxClusters ==> centroids[c] == old(centroids[c])
    {
      ghost var goal := Seed(data, k, rand, base);
      var c := 0;
      while c < k
        invariant 0 <= c <= k && Valid()
        invariant forall d :: 0 <= d < c ==> centroids[d] == goal[d]
        invariant forall d :: c <= d < MaxClusters ==> centroids[d] == old(centroids[d])
      {
        var idx := rand(base + c) % n;
        assert IsPoint(data[idx]);
        centroids[c] := data[idx];
        c := c + 1;
      }
      assert centroids[..k] == goal;
    }

    /** Save the first k centroids as the best ones. */
    method CopyCentroids(k: nat)
      requires Valid() && k <= MaxClusters
      modifies bestCentroids
      ensures Valid()
      ensures bestCentroids[..k] == centroids[..k]
      ensures forall c :: k <= c < MaxClusters ==> bestCentroids[c] == old(bestCentroids[c])
    {
      var c := 0;
      while c < k
        invariant 0 <= c <= k && Valid()
        invariant forall d :: 0 <= d < c ==> bestCentroids[d] == centroids[d]
        invariant forall d :: c <= d < MaxClusters ==> bestCentroids[d] == old(bestCentroids[d])
      {
        assert IsPoint(centroids[..][c]);
        bestCentroids[c] := centroids[c];
        c := c + 1;
      }
    }

    /** One iteration of a restart: an assignment step followed by an update
        step, on the given schedule; returns the assignment's change count. */
    method Iterate(sqrt: real -> real, k: nat, schedule: Schedule) returns (changes: nat)
      requires Valid() && IsSqrt(sqrt) && 1 <= k <= MaxClusters && Fits(schedule, n)
      modifies labels, centroids, newCentroids, counts
      ensures Valid()
      ensures labels[..n] == Relabel(data, old(centroids[..k]))
      ensures centroids[..k] == UpdateCents(data, labels[..n], old(centroids[..k]))
      ensures changes == Changed(old(labels[..n]), labels[..n], 0, n)
    {
      if schedule.Sequential? {
        changes := AssignPointsSeq(sqrt, k);
        UpdateCentroidsSeq(k);
      } else {
        changes := AssignPointsOmp(sqrt, k, schedule.bounds);
        UpdateCentroidsOmp(k, schedule.bounds);
      }
    }

    /** The accuracy of the current labels and centroids, on the given schedule. */
    method ComputeAccuracy(sqrt: real -> real, k: nat, schedule: Schedule) returns (acc: real)
      requires Valid() && 1 <= n && 1 <= k <= MaxClusters && LabelsIn(labels[..n], k) && Fits(schedule, n)
      ensures acc == Accuracy(sqrt, data, labels[..n], centroids[..k])
    {
      if schedule.Sequential? {
        acc := ComputeAccuracySeq(sqrt, k);
      } else {
        acc := ComputeAccuracyOmp(sqrt, k, schedule.bounds);
      }
    }

    /** One restart: unassign every point, seed the centroids from the
        r-th block of k `rand` outputs, then alternate assignment and update
        until an assignment changes nothing or MaxIter iterations have run.
        Returns the number of iterations run. */
    method RunRestart(sqrt: real -> real, k: nat, rand: nat -> nat, r: nat, schedule: Schedule)
      returns (iters: nat)
      requires Valid() && IsSqrt(sqrt) && 1 <= n && 1 <= k <= MaxClusters && Fits(schedule, n)
      modifies labels, centroids, newCentroids, counts
      ensures Valid()
      ensures labels[..n] == RestartOutcome(data, k, rand, r).labels
      ensures centroids[..k] == RestartOutcome(data, k, rand, r).cents
      ensures iters == RestartOutcome(data, k, rand, r).iters
    {
      ghost var goal := RestartOutcome(data, k, rand, r);
      ResetLabels();
      InitCentroids(k, rand, RandBase(r, k));
      ghost var ls := labels[..n];
      ghost var cs := centroids[..k];
      var iter := 0;
      while iter < MaxIter
        invariant 0 <= iter <= MaxIter
        invariant Valid() && labels[..n] == ls && centroids[..k] == cs
        invariant |ls| == n && |cs| == k && AllPoints(cs)
        invariant iter < MaxIter ==> goal == Later(Refine(data, ls, cs, MaxIter - iter), iter)
        invariant iter == MaxIter ==> goal == Outcome(ls, cs, MaxIter, false)
      {
        var changes := Iterate(sqrt, k, schedule);
        ghost var budget := MaxIter - iter;
        ghost var next := labels[..n];
        ghost var moved := centroids[..k];
        RefineStep(data, ls, cs, budget, next, moved, changes);
        ls, cs := next, moved;
        iter := iter + 1;
        if changes == 0 {
          break;
        }
      }
      iters := iter;
    }

    /** Restart r followed by the comparison with the best so far: a
        strictly lower accuracy replaces the best restart, its iteration count
        and the saved centroids; the iteration total grows by the restart's
        iteration count. */
    method RecordRestart(sqrt: real -> real, k: nat, rand: nat -> nat, r: nat, schedule: Schedule,
                         best: Best, bestIters: int, total: nat)
      returns (best': Best, bestIters': int, total': nat)
      requires Valid() && IsSqrt(sqrt) && 1 <= n && 1 <= k <= MaxClusters && Fits(schedule, n)
      requires best == Track(Accs(sqrt, data, k, rand, r))
      requires bestIters == BestIters(best, Iters(data, k, rand, r))
      requires total == TotalIters(data, k, rand, r)
      requires best.restart >= 0 ==>
        bestCentroids[..k] == RestartOutcome(data, k, rand, best.restart).cents
      modifies labels, centroids, newCentroids, counts, bestCentroids
      ensures Valid()
      ensures total' == TotalIters(data, k, rand, r + 1)
      ensures best' == Track(Accs(sqrt, data, k, rand, r + 1))
      ensures bestIters' == BestIters(best', Iters(data, k, rand, r + 1))
      ensures best'.restart >= 0 ==>
        bestCentroids[..k] == RestartOutcome(data, k, rand, best'.restart).cents
    {
      var iters := RunRestart(sqrt, k, rand, r, schedule);
      var acc := ComputeAccuracy(sqrt, k, schedule);
      RestartsStep(sqrt, data, k, rand, r, best, bestIters, total, acc, iters);
      total' := total + iters;
      if acc < best.acc {
        best', bestIters' := Best(acc, r), iters;
        CopyCentroids(k);
      } else {
        best', bestIters' := best, bestIters;
      }
    }

    /** The restart loop: run `restarts` restarts and keep the one with the
        strictly lowest accuracy, its iteration count and a copy of its
        centroids. Also returns the total number of iterations run. */
    method RunRestarts(sqrt: real -> real, k: nat, restarts: nat, rand: nat -> nat, schedule: Schedule)
      returns (best: Best, bestIters: int, total: nat)
      requires Valid() && IsSqrt(sqrt) && 1 <= n && 1 <= k <= MaxClusters && Fits(schedule, n)
      modifies labels, centroids, newCentroids, counts, bestCentroids
      ensures Valid()
      ensures best == Track(Accs(sqrt, data, k, rand, restarts))
      ensures bestIters == BestIters(best, Iters(data, k, rand, restarts))
      ensures total == TotalIters(data, k, rand, restarts)
      ensures best.restart >= 0 ==> bestCentroids[..k] == RestartOutcome(data, k, rand, best.restart).cents
    {
      best := NoBest;
      bestIters := -1;
      total := 0;
      var r := 0;
      assert Accs(sqrt, data, k, rand, 0) == [] && Iters(data, k, rand, 0) == [];
      while r < restarts
        invariant 0 <= r <= restarts
        invariant Valid()
        invariant best == Track(Accs(sqrt, data, k, rand, r))
        invariant bestIters == BestIters(best, Iters(data, k, rand, r))
        invariant total == TotalIters(data, k, rand, r)
        invariant best.restart >= 0 ==>
          bestCentroids[..k] == RestartOutcome(data, k, rand, best.restart).cents
      {
        best, bestIters, total := RecordRestart(sqrt, k, rand, r, schedule, best, bestIters, total);
        r := r + 1;
      }
    }
  }
}
