/** The meaning of one restart (reset the labels, seed the centroids,
    alternate assignment and update until nothing changes or the iteration
    ceiling is reached) and of the selection of the best restart. */
module Refinement {
  import opened Config
  import opened Geometry
  import opened Steps

  /** What the iteration loop leaves behind: the labels, the centroids, the
      number of iterations run, and whether the last assignment changed nothing. */
  datatype Outcome = Outcome(labels: seq<int>, cents: seq<Vector>, iters: nat, converged: bool)

  /** `o` reported `j` iterations later. */
  function Later(o: Outcome, j: nat): Outcome {
    o.(iters := o.iters + j)
  }

  /** Up to `budget` iterations, each an assignment followed by an update; the
      loop stops after the first iteration whose assignment changed no label. */
  function Refine(points: seq<Vector>, labels: seq<int>, cents: seq<Vector>, budget: nat): (out: Outcome)
    requires AllPoints(points) && AllPoints(cents) && |cents| >= 1 && |labels| == |points|
    requires budget >= 1
    ensures 1 <= out.iters <= budget
    ensures out.converged || out.iters == budget
    ensures |out.labels| == |points| && LabelsIn(out.labels, |cents|)
    ensures |out.cents| == |cents| && AllPoints(out.cents)
    decreases budget
  {
    var next := Relabel(points, cents);
    var moved := UpdateCents(points, next, cents);
    if Changed(labels, next, 0, |points|) == 0 then Outcome(next, moved, 1, true)
    else if budget == 1 then Outcome(next, moved, 1, false)
    else Later(Refine(points, next, moved, budget - 1), 1)
  }

  /** One iteration of the loop, taken from the labels `labels` and centroids
      `cents` to `next` and `moved` with `changes` labels changed: the rest of
      the run either stops here or continues from (`next`, `moved`). */
  lemma RefineStep(points: seq<Vector>, labels: seq<int>, cents: seq<Vector>, budget: nat,
                   next: seq<int>, moved: seq<Vector>, changes: nat)
    requires AllPoints(points) && AllPoints(cents) && |cents| >= 1 && |labels| == |points|
    requires budget >= 1
    requires next == Relabel(points, cents) && moved == UpdateCents(points, next, cents)
    requires changes == Changed(labels, next, 0, |points|)
    ensures changes == 0 ==> Refine(points, labels, cents, budget) == Outcome(next, moved, 1, true)
    ensures changes != 0 && budget == 1 ==> Refine(points, labels, cents, budget) == Outcome(next, moved, 1, false)
    ensures changes != 0 && budget > 1 ==>
      Refine(points, labels, cents, budget) == Later(Refine(points, next, moved, budget - 1), 1)
  {
  }

  /** When the centroids were just produced by an update from `labels`, a
      converged run ends at a fixed point of both steps. */
  lemma {:induction false} RefineFromUpdated(points: seq<Vector>, labels: seq<int>, prev: seq<Vector>, budget: nat)
    requires AllPoints(points) && AllPoints(prev) && |prev| >= 1 && |labels| == |points|
    requires budget >= 1
    ensures var out := Refine(points, labels, UpdateCents(points, labels, prev), budget);
            out.converged ==>
              Relabel(points, out.cents) == out.labels &&
              UpdateCents(points, out.labels, out.cents) == out.cents
    decreases budget
  {
    var cents := UpdateCents(points, labels, prev);
    var next := Relabel(points, cents);
    ChangedZeroIff(labels, next, 0, |points|);
    if Changed(labels, next, 0, |points|) == 0 {
      assert next == labels;
      UpdateIdempotent(points, labels, prev);
    } else if budget > 1 {
      RefineFromUpdated(points, next, cents, budget - 1);
    }
  }

  /** The labels of a fresh restart: every point unassigned (-1). */
  function Reset(n: nat): (labels: seq<int>)
    ensures |labels| == n
    ensures forall i :: 0 <= i < n ==> labels[i] == -1
  {
    seq(n, _ => -1)
  }

  /** A restart whose labels start unassigned cannot converge on its first
      iteration (at least one point exists), and when it converges it ends at
      a fixed point: assigning again keeps every label, and updating again
      keeps every centroid. */
  lemma ConvergedIsFixedPoint(points: seq<Vector>, cents: seq<Vector>, budget: nat)
    requires AllPoints(points) && AllPoints(cents) && |cents| >= 1 && |points| >= 1
    requires budget >= 1
    ensures var out := Refine(points, Reset(|points|), cents, budget);
            (out.converged ==> out.iters >= 2) &&
            (out.converged ==>
              Relabel(points, out.cents) == out.labels &&
              UpdateCents(points, out.labels, out.cents) == out.cents)
  {
    var next := Relabel(points, cents);
    var n := |points|;
    ChangedZeroIff(Reset(n), next, 0, n);
    assert Reset(n)[0] != next[0];
    if budget > 1 {
      RefineFromUpdated(points, next, cents, budget - 1);
    }
  }

  /** The initial centroids of a restart whose `rand` stream is at call
      `base`: centroid c copies the point at index `rand(base + c) % n`. */
  function Seed(points: seq<Vector>, k: nat, rand: nat -> nat, base: nat): (cents: seq<Vector>)
    requires |points| >= 1 && AllPoints(points)
    ensures |cents| == k && AllPoints(cents)
  {
    seq(k, c requires 0 <= c < k => points[rand(base + c) % |points|])
  }

  /** Every initial centroid is one of the loaded points. */
  lemma SeedRowsComeFromData(points: seq<Vector>, k: nat, rand: nat -> nat, base: nat)
    requires |points| >= 1 && AllPoints(points)
    ensures forall c :: 0 <= c < k ==> Seed(points, k, rand, base)[c] in points
  {
    forall c | 0 <= c < k ensures Seed(points, k, rand, base)[c] in points {
      var i := rand(base + c) % |points|;
      assert Seed(points, k, rand, base)[c] == points[i];
    }
  }

  /** Restart r: unassigned labels, centroids seeded from the r-th block of k
      `rand` outputs, refined for at most MaxIter iterations. */
  function RestartOutcome(points: seq<Vector>, k: nat, rand: nat -> nat, r: nat): (out: Outcome)
    requires |points| >= 1 && AllPoints(points) && k >= 1
    ensures |out.labels| == |points| && LabelsIn(out.labels, k)
    ensures |out.cents| == k && AllPoints(out.cents)
    ensures 1 <= out.iters <= MaxIter
  {
    Refine(points, Reset(|points|), Seed(points, k, rand, RandBase(r, k)), MaxIter)
  }

  /** How many `rand` calls the r restarts before restart r have consumed:
      each seeds k centroids with one call apiece. */
  function RandBase(r: nat, k: nat): nat {
    r * k
  }

  /** The accuracy each of the first R restarts ends with. */
  function Accs(sqrt: real -> real, points: seq<Vector>, k: nat, rand: nat -> nat, R: nat): (accs: seq<real>)
    requires |points| >= 1 && AllPoints(points) && k >= 1
    ensures |accs| == R
  {
    if R == 0 then []
    else
      var out := RestartOutcome(points, k, rand, R - 1);
      Accs(sqrt, points, k, rand, R - 1) + [Accuracy(sqrt, points, out.labels, out.cents)]
  }

  /** The iteration count of each of the first R restarts. */
  function Iters(points: seq<Vector>, k: nat, rand: nat -> nat, R: nat): (iters: seq<nat>)
    requires |points| >= 1 && AllPoints(points) && k >= 1
    ensures |iters| == R
  {
    if R == 0 then [] else Iters(points, k, rand, R - 1) + [RestartOutcome(points, k, rand, R - 1).iters]
  }

  /** Sum of the iteration counts of the first R restarts. */
  function TotalIters(points: seq<Vector>, k: nat, rand: nat -> nat, R: nat): (total: nat)
    requires |points| >= 1 && AllPoints(points) && k >= 1
    ensures R <= total <= R * MaxIter
  {
    if R == 0 then 0 else TotalIters(points, k, rand, R - 1) + RestartOutcome(points, k, rand, R - 1).iters
  }

  /** The best restart so far: its accuracy and index (-1 while none). */
  datatype Best = Best(acc: real, restart: int)

  const NoBest := Best(FltMax, -1)

  /** The running best over a sequence of accuracies: start from FltMax and
      restart -1, and take a restart only when its accuracy is strictly lower. */
  function Track(accs: seq<real>): (b: Best)
    ensures -1 <= b.restart < |accs|
    ensures b.acc <= FltMax
    ensures forall r :: 0 <= r < |accs| ==> b.acc <= accs[r]
    ensures b.restart == -1 ==> b == NoBest
    ensures b.restart >= 0 ==> b.acc == accs[b.restart] < FltMax
    ensures b.restart >= 0 ==> forall r :: 0 <= r < b.restart ==> accs[b.restart] < accs[r]
  {
    if |accs| == 0 then NoBest
    else
      var b := Track(accs[..|accs| - 1]);
      if accs[|accs| - 1] < b.acc then Best(accs[|accs| - 1], |accs| - 1) else b
  }

  /** Every restart failing to beat FltMax leaves no best restart; otherwise
      the best restart is the first minimum of the accuracies. */
  lemma TrackIsFirstMin(accs: seq<real>)
    ensures Track(accs).restart == -1 <==> forall r :: 0 <= r < |accs| ==> accs[r] >= FltMax
    ensures Track(accs).restart >= 0 ==> Track(accs).restart == FirstMin(accs, |accs|)
  {
    var b := Track(accs);
    if b.restart >= 0 {
      FirstMinUnique(accs, |accs|, b.restart);
    }
  }

  /** Adding a restart never raises the best accuracy, and replaces the best
      restart exactly when the new accuracy is strictly lower. */
  lemma TrackNeverIncreases(accs: seq<real>, a: real)
    ensures Track(accs + [a]).acc <= Track(accs).acc
    ensures Track(accs + [a]).restart == |accs| <==> a < Track(accs).acc
    ensures a < Track(accs).acc ==> Track(accs + [a]) == Best(a, |accs|)
    ensures a >= Track(accs).acc ==> Track(accs + [a]) == Track(accs)
  {
    assert (accs + [a])[..|accs|] == accs;
  }

  /** One more restart, with accuracy `acc` and `iters` iterations, updates
      the running best, its iteration count and the iteration total as the
      restart loop does. */
  lemma RestartsStep(sqrt: real -> real, points: seq<Vector>, k: nat, rand: nat -> nat, r: nat,
                     best: Best, bestIters: int, total: nat, acc: real, iters: nat)
    requires |points| >= 1 && AllPoints(points) && k >= 1
    requires best == Track(Accs(sqrt, points, k, rand, r))
    requires bestIters == BestIters(best, Iters(points, k, rand, r))
    requires total == TotalIters(points, k, rand, r)
    requires acc == Accuracy(sqrt, points, RestartOutcome(points, k, rand, r).labels, RestartOutcome(points, k, rand, r).cents)
    requires iters == RestartOutcome(points, k, rand, r).iters
    ensures var best' := if acc < best.acc then Best(acc, r) else best;
            best' == Track(Accs(sqrt, points, k, rand, r + 1)) &&
            (if acc < best.acc then iters else bestIters) == BestIters(best', Iters(points, k, rand, r + 1)) &&
            total + iters == TotalIters(points, k, rand, r + 1)
  {
    var accs := Accs(sqrt, points, k, rand, r);
    var its := Iters(points, k, rand, r);
    assert Accs(sqrt, points, k, rand, r + 1) == accs + [acc];
    assert Iters(points, k, rand, r + 1) == its + [iters];
    TrackNeverIncreases(accs, acc);
    if best.restart >= 0 {
      assert (its + [iters])[best.restart] == its[best.restart];
    }
  }

  /** The iteration count of the best restart, -1 while there is none. */
  function BestIters(b: Best, iters: seq<nat>): (i: int)
    requires -1 <= b.restart < |iters|
    ensures b.restart == -1 <==> i == -1
  {
    if b.restart == -1 then -1 else iters[b.restart]
  }
}
