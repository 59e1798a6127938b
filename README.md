# K-means with random restarts, modelled in Dafny

The repository holds two command-line programs. `k_means_seq_restarts.c` is
single-threaded. `k_means_omp_restarts.c` splits its point loops across
OpenMP threads. Both programs do the same work:

1. Load up to 1,000,000 points of 8 features each.
2. Run Lloyd's k-means a number of times ("restarts"). Each restart:
   - marks every point unassigned (label -1);
   - seeds the k centroids with points chosen by `rand() % n`;
   - alternates an assignment step and an update step, for at most 2000
     iterations, stopping after the first assignment that changes no label.
     The assignment step gives each point its nearest centroid, the first
     one on a tie. The update step moves each non-empty cluster's centroid
     to the mean of its points.
3. Score each restart by its "accuracy": the mean distance from each point
   to its centroid.
4. Keep the restart with the strictly lowest accuracy, and report it with
   its centroids.

The model has seven modules:

- `Config` holds the constants and the command-line validation of both
  programs.
- `Geometry` holds the vectors, the squared and rooted Euclidean distance,
  and the first-minimum argmin the assignment loop computes.
- `Steps` holds the value-level meaning of each step: relabelling, the
  change count, per-cluster counts and sums, the centroid update, and the
  total distance and accuracy.
- `Refinement` holds the meaning of one restart (`RestartOutcome`) and of the
  best-restart selection (`Track`).
- `Engine` is the class `KMeans`. It holds the programs' buffers as Dafny
  arrays. These are the static arrays `labels`, `centroids`,
  `new_centroids` and `counts`, and `best_centroids`. `best_centroids` is a
  static in the OpenMP program but a local of `main` in the sequential one
  (k_means_seq_restarts.c:241).
  Its methods are the C routines, each proved against the `Steps` and
  `Refinement` functions. A `Schedule` selects the sequential loop or a
  partition of the points into per-thread chunks.
- `Programs` holds both `main` functions end to end, from the parsed
  arguments to the reported summary.
- `Scenarios` holds the repository's unit tests, restated as lemmas about
  the model. It also holds an end-to-end restart on the points 0 and 10
  with k = 2 (`TwoPointRestart`), for every `rand` stream. The points always
  end in separate clusters with accuracy 0. Convergence does not always
  come within 2 iterations, though. When both `rand() % n` draws pick the
  same point, every distance ties and the first assignment puts both points
  in cluster 0. The update then moves that centroid to 5 and leaves
  cluster 1 on the seed point. The second assignment splits the points, and
  the third changes nothing, so the restart counts 3 iterations.

`sqrtf` is a parameter `sqrt: real -> real` that is assumed to be a
non-negative square root (`IsSqrt`). The `rand()` stream is a parameter
`rand: nat -> nat`, where `rand(j)` is the j-th value returned after
seeding. The loaded points are a parameter `points`.

## Model

| member | source | states |
|---|---|---|
| Config.ValidateSeq | k_means_seq_restarts.c:219-231 | accepted exactly when 1 <= k <= 10 and an explicit restart count is positive; k out of range is reported first; the run count is the given one or 100 |
| Config.ValidateOmp | k_means_omp_restarts.c:192-213 | accepted exactly when 1 <= k <= 10 and the restart count is at most 1000; a count <= 0 or a missing one becomes 100; the result lies in [1, 1000] |
| Config.ValidationsCompared | k_means_omp_restarts.c:207-213 | for valid k, the two programs agree on counts in [1, 1000]; only the OpenMP one accepts counts <= 0 (as 100); only the sequential one accepts counts above 1000 |
| Geometry.SqDistNonNegative | k_means_seq_restarts.c:103-108 | a sum of squared differences is never negative |
| Geometry.SqDistSymmetric | tests/test_distance.c:66-84 | the squared distance does not depend on argument order |
| Geometry.SqDistZeroIff | tests/test_distance.c:17-30 | squared distance 0 exactly when the two vectors are equal |
| Geometry.SquaredDistance | k_means_seq_restarts.c:103-108 | the feature loop accumulates exactly the sum of squared differences |
| Geometry.DistancePt | k_means_seq_restarts.c:101-110 | returns the square root of that sum |
| Geometry.DistanceIsMetricLike | k_means_omp_restarts.c:68-77 | the distance is non-negative and symmetric, and is 0 exactly for equal vectors |
| Geometry.SqDist | k_means_seq_restarts.c:103-108 | definition: the squared differences added from the first feature to the last; its properties are the three SqDist lemmas |
| Geometry.Distance | k_means_seq_restarts.c:101-110 | definition: the root of SqDist; its properties are in DistanceIsMetricLike |
| Geometry.VecAdd | k_means_seq_restarts.c:162-165 | a feature-wise sum keeps the vector length; the accumulator step of the update and of the merge at k_means_omp_restarts.c:143-146 |
| Geometry.Mean | k_means_seq_restarts.c:173-176 | a feature-wise division by the count keeps the vector length |
| Geometry.FirstMin | k_means_seq_restarts.c:121-132 | the scan over the first j scores ends at an index below j |
| Geometry.FirstMinStep | k_means_seq_restarts.c:127-131 | one more candidate replaces the minimum exactly when it is strictly smaller |
| Geometry.FirstMinIsMin | k_means_seq_restarts.c:121-132 | the chosen index holds a minimum, and it is strictly below every earlier candidate |
| Geometry.FirstMinUnique | k_means_seq_restarts.c:121-132 | any index that is minimal and strictly below all earlier candidates is the chosen one |
| Geometry.FirstMinOrderInvariant | k_means_seq_restarts.c:126-127 | comparing through an order-preserving map of the scores picks the same index |
| Geometry.NearestIsClosest | k_means_seq_restarts.c:124-132 | the chosen cluster is at minimum squared distance, and strictly closer than every lower-numbered centroid |
| Geometry.Scores | k_means_seq_restarts.c:124-126 | one squared distance per centroid, in centroid order |
| Geometry.Nearest | k_means_seq_restarts.c:122-132 | the chosen cluster is one of the k centroids |
| Geometry.RootedOrder | k_means_seq_restarts.c:109 | for non-negative arguments, the root preserves and reflects strict order |
| Geometry.ScanNearest | k_means_seq_restarts.c:121-132 | the scan (first candidate always taken, then strict `<`) ends at the first index of minimum distance |
| Geometry.Distances | k_means_seq_restarts.c:124-126 | one rooted distance per centroid, in centroid order, as the scan computes them |
| Geometry.NearestByDistance | k_means_omp_restarts.c:86-97 | comparing rooted distances picks the same cluster as comparing squared ones |
| Steps.Relabel | k_means_seq_restarts.c:119-139 | labels every point with its nearest centroid; every label lies in [0, k) |
| Steps.Changed | k_means_seq_restarts.c:117-139 | a range of points never changes more labels than it holds |
| Steps.ChangedStep | k_means_seq_restarts.c:134-138 | the change count grows by one exactly at a point whose label differs |
| Steps.ChangedIsSetSize | k_means_seq_restarts.c:134-139 | the change count is the number of points whose old and new labels differ |
| Steps.ChangedZeroIff | k_means_seq_restarts.c:274-275 | zero changes exactly when every label is unchanged |
| Steps.ChangedSplit | k_means_omp_restarts.c:83-104 | per-chunk change counts add up to the whole count (the `+` reduction) |
| Steps.ChangedAgree | k_means_omp_restarts.c:99-103 | the count depends only on the old labels inside the range |
| Steps.SecondAssignmentChangesNothing | test_k_means_seq.c:80-83 | assigning again with the same centroids changes no label |
| Steps.MemberCount | k_means_seq_restarts.c:158-161 | a range contributes at most as many members as it holds |
| Steps.MemberSum | k_means_seq_restarts.c:158-166 | a cluster's feature sum has 8 features |
| Steps.MemberCountIsSetSize | k_means_seq_restarts.c:158-161 | a cluster's count is the number of points labelled with it |
| Steps.MemberCountSplit | k_means_omp_restarts.c:127-142 | per-thread counts add up to the global count |
| Steps.MemberSumSplit | k_means_omp_restarts.c:127-146 | per-thread sums add up, feature by feature, to the global sum |
| Steps.VecAddZero | k_means_seq_restarts.c:150-155 | adding the zeroed accumulator changes nothing |
| Steps.VecAddAssociative | k_means_omp_restarts.c:138-148 | merging chunk sums into the global sums does not depend on grouping |
| Steps.VecAddCommutative | k_means_omp_restarts.c:145 | adding two partial sums does not depend on their order |
| Steps.Total | k_means_omp_restarts.c:142 | definition: counts added from first to last, as the critical sections add each thread's count; also the total of a count table |
| Steps.Merged | k_means_omp_restarts.c:138-148 | a zeroed sum with each thread's partial sum added in the order the threads arrive; it has 8 features |
| Steps.TotalRemove | k_means_omp_restarts.c:142 | any one thread's count can be taken out of the total and added last |
| Steps.MergedRemove | k_means_omp_restarts.c:145 | any one thread's partial sum can be taken out of the merge and added last |
| Steps.TotalOrderIrrelevant | k_means_omp_restarts.c:138-148 | any reordering of the thread counts gives the same merged count |
| Steps.MergeOrderIrrelevant | k_means_omp_restarts.c:138-148 | any reordering of the thread sums gives the same merged sum |
| Steps.ChunkCounts | k_means_omp_restarts.c:127-131 | one private count of cluster c per thread of the partition |
| Steps.ChunkSums | k_means_omp_restarts.c:127-136 | one private sum of cluster c per thread of the partition, each with 8 features |
| Steps.ChunksInOrder | k_means_omp_restarts.c:127-148 | merging the first w threads in thread order gives the count and sum of cluster c over [0, bounds[w]) |
| Steps.ChunksMergeToTotals | k_means_omp_restarts.c:118-149 | whatever order the threads enter the critical section, the merged count and sum of cluster c are its count and sum over all n points |
| Steps.CountTableBelow | k_means_seq_restarts.c:158-161 | a table of member counts adds up, over its first j entries, to the points labelled below j |
| Steps.CountTableTotal | k_means_seq_restarts.c:158-161 | a table of the k member counts, with all labels in [0, k), adds up to n |
| Steps.UpdateCents | k_means_seq_restarts.c:147-178 | one centroid per cluster, all with 8 features |
| Steps.UpdateIdempotent | k_means_seq_restarts.c:169-177 | for the same labels, updating again keeps every centroid |
| Steps.CountsSumToN | k_means_seq_restarts.c:158-161 | with labels in [0, k), the cluster counts sum to n |
| Steps.IsPartition | k_means_omp_restarts.c:83 | definition: the chunks of a `schedule(static)` loop, contiguous ranges in worker order from 0 to n |
| Steps.MemberSumOfIdentical | tests/test_k_means.c:125-151 | a cluster whose members are all p sums to its count times p |
| Steps.MeanOfMultiple | k_means_seq_restarts.c:173-176 | dividing count * p by the count gives back p |
| Steps.MeanOfIdentical | tests/test_k_means.c:107-123 | a non-empty cluster whose members are all p moves to p |
| Steps.TotalDistSplit | k_means_omp_restarts.c:166-171 | per-chunk distance totals add up to the whole total |
| Steps.TotalDist | k_means_seq_restarts.c:186-190 | definition: each point's distance to its centroid, added in index order; its properties are in TotalDistSplit, TotalDistNonNegative and TotalDistZeroIff |
| Steps.Accuracy | k_means_seq_restarts.c:183-192 | definition: that total divided by n; AccuracyNonNegative is about it |
| Steps.TotalDistNonNegative | k_means_seq_restarts.c:185-190 | the distance total is never negative |
| Steps.AccuracyNonNegative | k_means_seq_restarts.c:183-192 | the accuracy is never negative |
| Steps.TotalDistZeroIff | k_means_seq_restarts.c:186-190 | the total is zero exactly when every point equals its centroid |
| Refinement.Refine | k_means_seq_restarts.c:260-276 | runs between 1 and the budget of iterations; it stops early only on convergence; the final labels lie in [0, k) |
| Refinement.RefineStep | k_means_seq_restarts.c:263-275 | one iteration either stops (converged, or budget spent) or continues from the new labels and centroids |
| Refinement.RefineFromUpdated | k_means_seq_restarts.c:260-276 | a converged run that started from updated centroids ends at a fixed point of both steps |
| Refinement.Reset | k_means_seq_restarts.c:253-255 | n labels, all -1 |
| Refinement.ConvergedIsFixedPoint | k_means_seq_restarts.c:251-276 | a restart never converges on its first iteration; a converged restart is a fixed point of assignment and update |
| Refinement.Seed | k_means_seq_restarts.c:86-96 | k centroids, each of 8 features |
| Refinement.SeedRowsComeFromData | k_means_omp_restarts.c:56-66 | every seeded centroid is one of the loaded points |
| Refinement.RestartOutcome | k_means_seq_restarts.c:252-276 | a restart leaves n labels in [0, k), k centroids and 1 to 2000 iterations |
| Refinement.RandBase | k_means_seq_restarts.c:88-90 | definition: restart r starts at `rand()` call r * k, since each restart consumes k calls |
| Refinement.Accs | k_means_seq_restarts.c:278 | one accuracy per restart run |
| Refinement.Iters | k_means_omp_restarts.c:238-255 | one iteration count per restart run |
| Refinement.TotalIters | k_means_seq_restarts.c:247-272 | R restarts run between R and 2000 * R iterations |
| Refinement.Track | k_means_seq_restarts.c:241-285 | the best accuracy is at most FLT_MAX and at most every restart's; the best restart holds it and beats every earlier one strictly; with none, FLT_MAX and -1 remain |
| Refinement.TrackIsFirstMin | k_means_seq_restarts.c:280-285 | no best restart exactly when no accuracy is below FLT_MAX; otherwise the best restart is the first one of minimum accuracy |
| Refinement.TrackNeverIncreases | k_means_omp_restarts.c:271-277 | a new restart never raises the best accuracy, and becomes the best exactly when strictly lower |
| Refinement.RestartsStep | k_means_omp_restarts.c:269-277 | one more restart updates the best, its iteration count and the total as the loop body does |
| Refinement.BestIters | k_means_omp_restarts.c:226-275 | -1 exactly when there is no best restart |
| Engine.KMeans.constructor | k_means_seq_restarts.c:14-20 | the buffers are fresh and sized to the constants, and hold the loaded points |
| Engine.KMeans.NearestCentroid | k_means_seq_restarts.c:121-132 | the scan over the first k centroids returns the nearest, first on ties |
| Engine.KMeans.AssignPoint | k_means_seq_restarts.c:124-138 | point i gets its nearest centroid, the count grows by one exactly if its label changed, and no other label moves |
| Engine.KMeans.AssignRange | k_means_omp_restarts.c:84-104 | the points of a range are relabelled, the rest untouched, and the count is that range's number of changes |
| Engine.KMeans.AssignPointsSeq | k_means_seq_restarts.c:115-142 | all n labels become the nearest centroids; returns how many changed |
| Engine.KMeans.AssignPointsOmp | k_means_omp_restarts.c:79-107 | for any partition into chunks: same labels and same change count as the sequential step |
| Engine.KMeans.ResetAccumulators | k_means_seq_restarts.c:150-155 | zeroes the first k counts and sums; the others keep their values |
| Engine.KMeans.Accumulate | k_means_seq_restarts.c:158-166 | each cluster's count and sum gain exactly the members in the range |
| Engine.KMeans.MergeInto | k_means_omp_restarts.c:138-148 | the global counts and sums gain one thread's counts and sums |
| Engine.KMeans.ApplyMeans | k_means_seq_restarts.c:169-177 | the first k centroids become the update of the old ones; the others stay |
| Engine.KMeans.UpdateCentroidsSeq | k_means_seq_restarts.c:147-178 | the centroids become the per-cluster means, and empty clusters keep their centroid; counts[c] is the number of points labelled c, and new_centroids[c] is their sum; the first k counts add up to n; the clusters from k on are untouched |
| Engine.KMeans.UpdateCentroidsOmp | k_means_omp_restarts.c:109-160 | for any partition into chunks: the same centroids, counts and sums as the sequential update, with the first k counts adding up to n |
| Engine.KMeans.AccuracyRange | k_means_seq_restarts.c:186-190 | the loop sums each point's distance to its centroid |
| Engine.KMeans.ComputeAccuracySeq | k_means_seq_restarts.c:183-192 | the accuracy is that total divided by n |
| Engine.KMeans.ComputeAccuracyOmp | k_means_omp_restarts.c:162-174 | for any partition into chunks: the same accuracy |
| Engine.KMeans.ResetLabels | k_means_omp_restarts.c:232-234 | the n labels become -1; nothing beyond n changes |
| Engine.KMeans.InitCentroids | k_means_seq_restarts.c:86-96 | centroid c copies point rand(base + c) % n; the others stay |
| Engine.KMeans.CopyCentroids | k_means_seq_restarts.c:197-204 | the saved centroids equal the current first k centroids |
| Engine.KMeans.Iterate | k_means_seq_restarts.c:263-267 | the labels are the assignment under the old centroids; the centroids are their update; returns the change count |
| Engine.KMeans.ComputeAccuracy | k_means_omp_restarts.c:269 | the accuracy of the current labels and centroids under either schedule |
| Engine.KMeans.RunRestart | k_means_seq_restarts.c:252-276 | leaves the labels, centroids and iteration count of the restart's meaning |
| Engine.KMeans.RecordRestart | k_means_omp_restarts.c:236-277 | after restart r, the best, its iterations, the total and the saved centroids describe restarts 0..r |
| Engine.KMeans.RunRestarts | k_means_seq_restarts.c:241-286 | the best of all restarts, its iteration count, the iteration total and, when one exists, the best restart's centroids |
| Programs.ReportsAgree | k_means_omp_restarts.c:230-278 | two reports of the same restarts agree on best restart, best accuracy, total and saved centroids |
| Programs.Reports | k_means_omp_restarts.c:282-294 | definition: the printed best restart and best accuracy are those of `Track`; the iteration total is `TotalIters`; the k printed centroids are the best restart's |
| Programs.RunSeq | k_means_seq_restarts.c:210-286 | rejected exactly when validation fails, with its error; otherwise it reports the restarts' best, the total and the best restart's centroids |
| Programs.RunOmp | k_means_omp_restarts.c:183-278 | the same for the OpenMP program, with the best restart's iteration count, whatever the chunking |
| Scenarios.Const | tests/test_k_means.c:55-58 | a point holding the given value in every feature |
| Scenarios.SqDistConstant | tests/test_distance.c:86-101 | constant vectors x and y are at squared distance 8 * (x - y)^2 |
| Scenarios.SqDistEqualTail | tests/test_distance.c:32-50 | helper of the distance scenarios: features where the vectors agree add nothing |
| Scenarios.RootOf | k_means_seq_restarts.c:109 | helper of the distance scenarios: the root of y * y for y >= 0 is y |
| Scenarios.UnitDistance | test_k_means_seq.c:31-41 | a unit difference in one feature gives distance 1 |
| Scenarios.AllFeaturesDistance | test_k_means_seq.c:43-49 | unit differences in all features give distance sqrt(8) |
| Scenarios.KnownDistance | tests/test_distance.c:32-50 | the 3-4-5 triangle gives distance 5 |
| Scenarios.NegativeCoordinates | tests/test_distance.c:52-64 | coordinates -1 and 1 give distance 2 |
| Scenarios.AssignScenario | test_k_means_seq.c:53-86 | points 0 and 10 against centroids 1 and 9 get labels 0 and 1, two changes, then none |
| Scenarios.AddConst | tests/test_k_means.c:55-69 | helper of the update scenarios: sums of constant points are constant |
| Scenarios.MeanConst | tests/test_k_means.c:71-75 | helper of the update scenarios: the mean of a constant sum is constant |
| Scenarios.SumOfTwo | tests/test_k_means.c:55-61 | helper of the update scenarios: a two-point cluster sums to the sum of its values and counts 2 |
| Scenarios.UpdateScenario | tests/test_k_means.c:45-77 | clusters {1, 2} and {10, 12} move to 1.5 and 11 |
| Scenarios.SequentialUpdateScenario | test_k_means_seq.c:88-116 | clusters {2, 4} and {10} move to 3 and 10 |
| Scenarios.SuffixSum | tests/test_k_means.c:63-69 | helper of the update scenarios: counting and summing from index m is counting and summing the suffix from 0 |
| Scenarios.EmptyClusterScenario | tests/test_k_means.c:79-105 | an empty cluster keeps its preset 999; the other moves to 6 |
| Scenarios.SinglePointScenario | tests/test_k_means.c:107-123 | a single point becomes its cluster's centroid |
| Scenarios.AlternatingScenario | tests/test_k_means.c:125-151 | alternating points 2 and 4 give centroids 2 and 4, for any number of points |
| Scenarios.AccuracyScenario | test_k_means_seq.c:118-133 | one point at 0 with its centroid at 1 gives accuracy sqrt(8) |
| Scenarios.NearestOfTwo | k_means_seq_restarts.c:122-131 | helper of the two-point restart: a constant point goes to the second of two constant centroids only when strictly closer, so a tie goes to cluster 0 |
| Scenarios.RelabelTwo | k_means_seq_restarts.c:115-139 | helper of the two-point restart: the labels of points 0 and 10 against two constant centroids |
| Scenarios.UpdateApart | k_means_seq_restarts.c:146-180 | helper of the two-point restart: with points 0 and 10 in separate clusters each centroid moves onto its point |
| Scenarios.UpdateTogether | k_means_seq_restarts.c:146-180 | helper of the two-point restart: with both points in cluster 0 it moves to 5 and the empty cluster 1 keeps its centroid |
| Scenarios.SettledTwo | k_means_seq_restarts.c:260-276 | helper of the two-point restart: centroids on the two points change no label, so the loop stops after one more iteration |
| Scenarios.SeedsApart | k_means_seq_restarts.c:260-276 | helper of the two-point restart: seeds on different points separate them in the first iteration and converge in the second |
| Scenarios.FirstPassTogether | k_means_seq_restarts.c:260-276 | helper of the two-point restart: two seeds on one point tie for both points, so the first iteration puts both in cluster 0, which moves to 5 |
| Scenarios.SecondPassFromZero | k_means_seq_restarts.c:260-276 | helper of the two-point restart: after that first pass from seeds at 0, the point at 0 moves to cluster 1, still at 0, and the points are split |
| Scenarios.SecondPassFromTen | k_means_seq_restarts.c:260-276 | helper of the two-point restart: after that first pass from seeds at 10, the point at 10 moves to cluster 1, still at 10, and the points are split |
| Scenarios.SeedOfTwo | k_means_seq_restarts.c:86-96 | helper of the two-point restart: each seed is the point picked by its `rand() % 2` |
| Scenarios.RefineFromSeeds | k_means_seq_restarts.c:250-276 | the exact outcome of a restart from any seeds on points 0 and 10: the point at 10 ends in the cluster of the second seed, each point on its own centroid, converged after 2 iterations when the seeds differ and 3 when they coincide |
| Scenarios.AccuracyApart | k_means_seq_restarts.c:183-192 | points 0 and 10 each on its own centroid, in either numbering, have accuracy 0 |
| Scenarios.TwoPointOutcome | k_means_seq_restarts.c:250-276 | the outcome of restart r on points 0 and 10 with k = 2, for every `rand` stream, as a function of its two `rand() % 2` draws |
| Scenarios.TwoPointRestart | k_means_seq_restarts.c:250-278 | on points 0 and 10 with k = 2, every restart, whatever `rand` returns, separates the two points and reaches accuracy 0; it converges after 2 iterations when the two `rand() % n` seeds pick different points, and after 3 when both pick the same point, because the first assignment then ties and puts both points in cluster 0, the update moves that centroid to 5 and leaves cluster 1 on the seed point, and the second assignment splits the points |

## Left out

- Loading the CSV file is not modelled. This covers `load_csv_flexible`, `load_csv`, their delimiter handling and the `strtof` parsing. The loaded points are a parameter.
- The differences between the two loaders are not modelled either. The OpenMP `load_csv` does not check for parse failures.
- Argument parsing with `atoi` is not modelled. The usage message for fewer than 3 arguments and all `printf` output are left out. `k` and the optional restart count are parameters.
- Timing is left out: `clock_gettime`, `omp_get_wtime`, and the A-step and U-step averages. The OpenMP `VERBOSE` block is compiled out and is left out too.
- `srand(time(NULL))` and `rand()` are the parameter `rand`. Restart r consumes calls r*k .. r*k+k-1. `RAND_MAX` is not modelled.
- `float` and `double` arithmetic is modelled as exact real arithmetic. This covers the float accumulation, the double total in the accuracy, and the casts. Rounding, and the dependence of a summation's result on its order, are not captured.
- `sqrtf` is the parameter `sqrt` with `IsSqrt`.
- In the argmin, `FLT_MAX` is treated as +infinity, so the first centroid is always taken. The C code starts from `FLT_MAX` with `best_cluster` at 0. The two choices agree unless some distance reaches `FLT_MAX`, which exact real arithmetic does not bound.
- OpenMP threads are modelled as a partition of the points into chunks. Each chunk is processed in order, and merges happen in chunk order.
  - `Engine.KMeans.UpdateCentroidsOmp` merges the threads in chunk order. The `omp critical` sections run in whatever order the threads arrive. `Steps.ChunksMergeToTotals` proves that every arrival order gives the same counts and sums in exact arithmetic. The engine itself does not execute an out-of-order merge.
  - The actual static chunking of `schedule(static)` and the thread count are not modelled.
  - Races are not modelled. The code has none: the updates are per-point, reductions, or inside `omp critical`.
- A thread's sums (`local_sums`) are modelled as fully zeroed. The C code zeroes only the first k rows. It never reads the others.
- An empty data file (n = 0) is excluded by the `requires` of `RunSeq` and `RunOmp`. The C code would evaluate `rand() % 0` and divide by zero.
- The update methods of `Engine.KMeans` require labels in [0, k). In C, a label outside that range would index `counts` out of bounds. Every assignment produces labels in range, and the -1 labels of a fresh restart never reach the update. `Steps.UpdateCents` has no such requirement: it counts a label outside [0, k) in no cluster.
- The point buffer `data` is a read-only sequence, not a mutable array. Nothing outside the loader writes it.
- `distance_pt`'s feature loop is kept as a method. The per-feature copy, add and divide loops are vector functions (`VecAdd`, `Mean`, sequence slices), not loops over features.
- Programs.RunSeq: does not report an iteration count for the best restart, because the sequential program does not track one.
- Programs.Reports: says nothing about the saved centroids when no restart beats `FLT_MAX`. The sequential program's `best_centroids` is then uninitialised, and the OpenMP program's is zero.
- Engine.KMeans.NearestCentroid: scans a snapshot of the first k centroids. The array is not written during the scan.
- The second `k > MAX_K` check in the OpenMP `main` cannot fire once the `MAX_CLUSTERS` check has passed, because both limits are 10. It is folded into `Config.ValidateOmp`.
- The CSV loader test (`test_load_csv_flexible`, `tests/test_load_csv.c`) is left out because loading is not modelled.
