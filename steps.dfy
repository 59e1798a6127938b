/** The meaning of one assignment step, one update step and the accuracy
    metric, stated over the first n points (`points`, `labels`) and the first
    k centroids (`cents`). Aggregates over a range [lo, hi) of point indices
    are what one worker of the OpenMP programs accumulates; the split lemmas
    say that adjacent ranges add up. */
module Steps {
  import opened Config
  import opened Geometry

  /** Every label is a cluster index in [0, k). */
  predicate LabelsIn(labels: seq<int>, k: int) {
    forall i :: 0 <= i < |labels| ==> 0 <= labels[i] < k
  }

  // ---------------------------------------------------------------- assignment

  /** The labels an assignment step leaves: each point's nearest centroid. */
  function Relabel(points: seq<Vector>, cents: seq<Vector>): (r: seq<int>)
    requires AllPoints(points) && AllPoints(cents) && |cents| >= 1
    ensures |r| == |points| && LabelsIn(r, |cents|)
    ensures forall i :: 0 <= i < |points| ==> r[i] == Nearest(points[i], cents)
  {
    seq(|points|, i requires 0 <= i < |points| => Nearest(points[i], cents))
  }

  /** The number of indices in [lo, hi) where `before` and `after` differ:
      the change counter of the assignment step over that range. */
  function Changed(before: seq<int>, after: seq<int>, lo: nat, hi: nat): (n: nat)
    requires lo <= hi <= |before| && hi <= |after|
    ensures n <= hi - lo
    decreases hi
  {
    if hi == lo then 0
    else Changed(before, after, lo, hi - 1) + (if before[hi - 1] != after[hi - 1] then 1 else 0)
  }

  /** Extending the range by one index adds one exactly when that index changed. */
  lemma ChangedStep(before: seq<int>, after: seq<int>, lo: nat, hi: nat)
    requires lo <= hi < |before| && hi < |after|
    ensures Changed(before, after, lo, hi + 1) ==
      Changed(before, after, lo, hi) + (if before[hi] != after[hi] then 1 else 0)
  {
  }

  /** The change counter is the size of the set of changed indices. */
  lemma {:induction false} ChangedIsSetSize(before: seq<int>, after: seq<int>, lo: nat, hi: nat)
    requires lo <= hi <= |before| && hi <= |after|
    ensures Changed(before, after, lo, hi) == |set i | lo <= i < hi && before[i] != after[i]|
    decreases hi
  {
    if hi > lo {
      ChangedIsSetSize(before, after, lo, hi - 1);
      var s := set i | lo <= i < hi - 1 && before[i] != after[i];
      if before[hi - 1] != after[hi - 1] {
        assert (set i | lo <= i < hi && before[i] != after[i]) == s + {hi - 1};
      } else {
        assert (set i | lo <= i < hi && before[i] != after[i]) == s;
      }
    }
  }

  /** No change is counted exactly when the two label sequences agree on the range. */
  lemma {:induction false} ChangedZeroIff(before: seq<int>, after: seq<int>, lo: nat, hi: nat)
    requires lo <= hi <= |before| && hi <= |after|
    ensures Changed(before, after, lo, hi) == 0 <==> forall i :: lo <= i < hi ==> before[i] == after[i]
    decreases hi
  {
    if hi > lo {
      ChangedZeroIff(before, after, lo, hi - 1);
    }
  }

  /** Counting two adjacent ranges separately and adding gives the count of their union. */
  lemma {:induction false} ChangedSplit(before: seq<int>, after: seq<int>, lo: nat, mid: nat, hi: nat)
    requires lo <= mid <= hi <= |before| && hi <= |after|
    ensures Changed(before, after, lo, hi) == Changed(before, after, lo, mid) + Changed(before, after, mid, hi)
    decreases hi
  {
    if hi > mid {
      ChangedSplit(before, after, lo, mid, hi - 1);
    }
  }

  /** The count over a range depends only on the labels inside the range. */
  lemma {:induction false} ChangedAgree(before: seq<int>, before': seq<int>, after: seq<int>, lo: nat, hi: nat)
    requires lo <= hi <= |before| && hi <= |before'| && hi <= |after|
    requires forall i :: lo <= i < hi ==> before[i] == before'[i]
    ensures Changed(before, after, lo, hi) == Changed(before', after, lo, hi)
    decreases hi
  {
    if hi > lo {
      ChangedAgree(before, before', after, lo, hi - 1);
    }
  }

  /** Assigning a second time with the same centroids changes nothing. */
  lemma SecondAssignmentChangesNothing(points: seq<Vector>, cents: seq<Vector>)
    requires AllPoints(points) && AllPoints(cents) && |cents| >= 1
    ensures Changed(Relabel(points, cents), Relabel(points, cents), 0, |points|) == 0
  {
    ChangedZeroIff(Relabel(points, cents), Relabel(points, cents), 0, |points|);
  }

  // -------------------------------------------------------------------- update

  /** The number of points in [lo, hi) labelled `c`. */
  function MemberCount(labels: seq<int>, c: int, lo: nat, hi: nat): (m: nat)
    requires lo <= hi <= |labels|
    ensures m <= hi - lo
    decreases hi
  {
    if hi == lo then 0
    else MemberCount(labels, c, lo, hi - 1) + (if labels[hi - 1] == c then 1 else 0)
  }

  /** The feature-wise sum of the points in [lo, hi) labelled `c`. */
  function MemberSum(points: seq<Vector>, labels: seq<int>, c: int, lo: nat, hi: nat): (s: Vector)
    requires lo <= hi <= |points| == |labels| && AllPoints(points)
    ensures IsPoint(s)
    decreases hi
  {
    if hi == lo then Zero()
    else
      var s := MemberSum(points, labels, c, lo, hi - 1);
      if labels[hi - 1] == c then VecAdd(s, points[hi - 1]) else s
  }

  /** The member count is the size of the set of members. */
  lemma {:induction false} MemberCountIsSetSize(labels: seq<int>, c: int, lo: nat, hi: nat)
    requires lo <= hi <= |labels|
    ensures MemberCount(labels, c, lo, hi) == |set i | lo <= i < hi && labels[i] == c|
    decreases hi
  {
    if hi > lo {
      MemberCountIsSetSize(labels, c, lo, hi - 1);
      var s := set i | lo <= i < hi - 1 && labels[i] == c;
      if labels[hi - 1] == c {
        assert (set i | lo <= i < hi && labels[i] == c) == s + {hi - 1};
      } else {
        assert (set i | lo <= i < hi && labels[i] == c) == s;
      }
    }
  }

  lemma {:induction false} MemberCountSplit(labels: seq<int>, c: int, lo: nat, mid: nat, hi: nat)
    requires lo <= mid <= hi <= |labels|
    ensures MemberCount(labels, c, lo, hi) == MemberCount(labels, c, lo, mid) + MemberCount(labels, c, mid, hi)
    decreases hi
  {
    if hi > mid {
      MemberCountSplit(labels, c, lo, mid, hi - 1);
    }
  }

  lemma VecAddZero(a: Vector)
    requires IsPoint(a)
    ensures VecAdd(a, Zero()) == a
  {
  }

  lemma VecAddAssociative(a: Vector, b: Vector, c: Vector)
    requires |a| == |b| == |c|
    ensures VecAdd(VecAdd(a, b), c) == VecAdd(a, VecAdd(b, c))
  {
  }

  /** Summing two adjacent ranges separately and adding the partial sums
      (a worker's private sums merged into the global ones) gives the sum
      over their union. */
  lemma {:induction false} MemberSumSplit(points: seq<Vector>, labels: seq<int>, c: int, lo: nat, mid: nat, hi: nat)
    requires lo <= mid <= hi <= |points| == |labels| && AllPoints(points)
    ensures MemberSum(points, labels, c, lo, hi)
            == VecAdd(MemberSum(points, labels, c, lo, mid), MemberSum(points, labels, c, mid, hi))
    decreases hi
  {
    if hi == mid {
      VecAddZero(MemberSum(points, labels, c, lo, mid));
    } else {
      MemberSumSplit(points, labels, c, lo, mid, hi - 1);
      if labels[hi - 1] == c {
        VecAddAssociative(MemberSum(points, labels, c, lo, mid),
                          MemberSum(points, labels, c, mid, hi - 1), points[hi - 1]);
      }
    }
  }

  // ------------------------------------------------------------------- merging

  /** The sum of a sequence of counts, added from the first to the last:
      a zeroed global count with each worker's count added in turn, or the
      total of a count table. */
  function Total(xs: seq<int>): int
    decreases |xs|
  {
    if |xs| == 0 then 0 else Total(xs[..|xs| - 1]) + xs[|xs| - 1]
  }

  /** A zeroed global sum with each worker's partial sum added in turn,
      in the order the workers enter the critical section. */
  function Merged(parts: seq<Vector>): (s: Vector)
    requires AllPoints(parts)
    ensures IsPoint(s)
    decreases |parts|
  {
    if |parts| == 0 then Zero() else VecAdd(Merged(parts[..|parts| - 1]), parts[|parts| - 1])
  }

  lemma VecAddCommutative(a: Vector, b: Vector)
    requires |a| == |b|
    ensures VecAdd(a, b) == VecAdd(b, a)
  {
  }

  /** Taking the count of entry i out of the total and adding it last. */
  lemma {:induction false} TotalRemove(xs: seq<int>, i: nat)
    requires i < |xs|
    ensures Total(xs) == Total(xs[..i] + xs[i + 1..]) + xs[i]
    decreases |xs|
  {
    var m := |xs| - 1;
    if i < m {
      var init := xs[..m];
      TotalRemove(init, i);
      assert xs[..i] + xs[i + 1..] == (init[..i] + init[i + 1..]) + [xs[m]];
      assert (xs[..i] + xs[i + 1..])[..m - 1] == init[..i] + init[i + 1..];
    } else {
      assert xs[..i] + xs[i + 1..] == xs[..m];
    }
  }

  /** Taking part i out of the merge and adding it last. */
  lemma {:induction false} MergedRemove(parts: seq<Vector>, i: nat)
    requires AllPoints(parts) && i < |parts|
    ensures Merged(parts) == VecAdd(Merged(parts[..i] + parts[i + 1..]), parts[i])
    decreases |parts|
  {
    var m := |parts| - 1;
    var rest := parts[..i] + parts[i + 1..];
    if i < m {
      var init := parts[..m];
      var initRest := init[..i] + init[i + 1..];
      MergedRemove(init, i);
      assert rest == initRest + [parts[m]];
      assert rest[..m - 1] == initRest;
      VecAddAssociative(Merged(initRest), parts[i], parts[m]);
      VecAddCommutative(parts[i], parts[m]);
      VecAddAssociative(Merged(initRest), parts[m], parts[i]);
    } else {
      assert rest == parts[..m];
    }
  }

  /** The merged counts do not depend on the order the workers arrive in. */
  lemma {:induction false} TotalOrderIrrelevant(xs: seq<int>, ys: seq<int>)
    requires multiset(xs) == multiset(ys)
    ensures Total(xs) == Total(ys)
    decreases |xs|
  {
    if |xs| > 0 {
      var m := |xs| - 1;
      var x := xs[m];
      assert x in multiset(ys);
      var i :| 0 <= i < |ys| && ys[i] == x;
      var rest := ys[..i] + ys[i + 1..];
      assert ys == ys[..i] + [ys[i]] + ys[i + 1..];
      assert xs == xs[..m] + [x];
      assert multiset(ys) == multiset(ys[..i]) + multiset{x} + multiset(ys[i + 1..]);
      assert multiset(rest) == multiset(ys[..i]) + multiset(ys[i + 1..]);
      assert multiset(xs) == multiset(xs[..m]) + multiset{x};
      assert multiset(xs[..m]) == multiset(xs) - multiset{x} == multiset(rest);
      TotalOrderIrrelevant(xs[..m], rest);
      TotalRemove(ys, i);
    } else {
      assert |ys| == |multiset(ys)| == 0;
    }
  }

  /** The merged sums do not depend on the order the workers arrive in. */
  lemma {:induction false} MergeOrderIrrelevant(a: seq<Vector>, b: seq<Vector>)
    requires AllPoints(a) && AllPoints(b) && multiset(a) == multiset(b)
    ensures Merged(a) == Merged(b)
    decreases |a|
  {
    if |a| > 0 {
      var m := |a| - 1;
      var x := a[m];
      assert x in multiset(b);
      var i :| 0 <= i < |b| && b[i] == x;
      var rest := b[..i] + b[i + 1..];
      assert b == b[..i] + [b[i]] + b[i + 1..];
      assert a == a[..m] + [x];
      assert multiset(b) == multiset(b[..i]) + multiset{x} + multiset(b[i + 1..]);
      assert multiset(rest) == multiset(b[..i]) + multiset(b[i + 1..]);
      assert multiset(a) == multiset(a[..m]) + multiset{x};
      assert multiset(a[..m]) == multiset(a) - multiset{x} == multiset(rest);
      MergeOrderIrrelevant(a[..m], rest);
      MergedRemove(b, i);
    } else {
      assert |b| == |multiset(b)| == 0;
    }
  }

  /** The private counts of cluster c of the workers of partition `bounds`. */
  function ChunkCounts(labels: seq<int>, c: int, bounds: seq<int>): (parts: seq<int>)
    requires IsPartition(bounds, |labels|)
    ensures |parts| == |bounds| - 1
  {
    seq(|bounds| - 1, w requires 0 <= w < |bounds| - 1 => MemberCount(labels, c, bounds[w], bounds[w + 1]))
  }

  /** The private sums of cluster c of the workers of partition `bounds`. */
  function ChunkSums(points: seq<Vector>, labels: seq<int>, c: int, bounds: seq<int>): (parts: seq<Vector>)
    requires |points| == |labels| && AllPoints(points) && IsPartition(bounds, |points|)
    ensures |parts| == |bounds| - 1 && AllPoints(parts)
  {
    seq(|bounds| - 1, w requires 0 <= w < |bounds| - 1 => MemberSum(points, labels, c, bounds[w], bounds[w + 1]))
  }

  /** Merging the first w workers in worker order covers [0, bounds[w]). */
  lemma {:induction false} ChunksInOrder(points: seq<Vector>, labels: seq<int>, c: int, bounds: seq<int>, w: nat)
    requires |points| == |labels| && AllPoints(points) && IsPartition(bounds, |points|)
    requires w < |bounds|
    ensures Total(ChunkCounts(labels, c, bounds)[..w]) == MemberCount(labels, c, 0, bounds[w])
    ensures Merged(ChunkSums(points, labels, c, bounds)[..w]) == MemberSum(points, labels, c, 0, bounds[w])
    decreases w
  {
    if w > 0 {
      var counts, sums := ChunkCounts(labels, c, bounds), ChunkSums(points, labels, c, bounds);
      assert bounds[0] <= bounds[w - 1] <= bounds[w] <= bounds[|bounds| - 1];
      ChunksInOrder(points, labels, c, bounds, w - 1);
      assert counts[..w][..w - 1] == counts[..w - 1];
      assert sums[..w][..w - 1] == sums[..w - 1];
      MemberCountSplit(labels, c, 0, bounds[w - 1], bounds[w]);
      MemberSumSplit(points, labels, c, 0, bounds[w - 1], bounds[w]);
    }
  }

  /** Whatever order the workers of a partition enter the critical section
      in, the merged count and sum of cluster c are its count and sum over
      all points. */
  lemma ChunksMergeToTotals(points: seq<Vector>, labels: seq<int>, c: int, bounds: seq<int>,
                            countOrder: seq<int>, sumOrder: seq<Vector>)
    requires |points| == |labels| && AllPoints(points) && IsPartition(bounds, |points|)
    requires multiset(countOrder) == multiset(ChunkCounts(labels, c, bounds))
    requires AllPoints(sumOrder) && multiset(sumOrder) == multiset(ChunkSums(points, labels, c, bounds))
    ensures Total(countOrder) == MemberCount(labels, c, 0, |labels|)
    ensures Merged(sumOrder) == MemberSum(points, labels, c, 0, |points|)
  {
    var counts, sums := ChunkCounts(labels, c, bounds), ChunkSums(points, labels, c, bounds);
    var w := |bounds| - 1;
    ChunksInOrder(points, labels, c, bounds, w);
    assert counts[..w] == counts && sums[..w] == sums;
    TotalOrderIrrelevant(countOrder, counts);
    MergeOrderIrrelevant(sumOrder, sums);
  }

  /** The counts of the first j clusters of a count table whose entries
      are the member counts add up to the points labelled below j. */
  lemma {:induction false} CountTableBelow(counts: seq<int>, labels: seq<int>, j: nat)
    requires j <= |counts|
    requires forall c :: 0 <= c < j ==> counts[c] == MemberCount(labels, c, 0, |labels|)
    ensures Total(counts[..j]) == CountsBelow(labels, j, |labels|)
    decreases j
  {
    if j > 0 {
      assert counts[..j][..j - 1] == counts[..j - 1];
      CountTableBelow(counts, labels, j - 1);
    }
  }

  /** A count table holding the member counts of clusters [0, k), with
      every label in [0, k), adds up to n. */
  lemma CountTableTotal(counts: seq<int>, labels: seq<int>, k: nat)
    requires k <= |counts| && LabelsIn(labels, k)
    requires forall c :: 0 <= c < k ==> counts[c] == MemberCount(labels, c, 0, |labels|)
    ensures Total(counts[..k]) == |labels|
  {
    CountTableBelow(counts, labels, k);
    CountsSumToN(labels, k);
  }

  /** The centroids an update step leaves: a cluster with members becomes
      the mean of its members; a cluster without members keeps its centroid. */
  function UpdateCents(points: seq<Vector>, labels: seq<int>, cents: seq<Vector>): (r: seq<Vector>)
    requires AllPoints(points) && AllPoints(cents) && |labels| == |points|
    ensures |r| == |cents| && AllPoints(r)
  {
    seq(|cents|, c requires 0 <= c < |cents| =>
      var m := MemberCount(labels, c, 0, |labels|);
      if m == 0 then cents[c] else Mean(MemberSum(points, labels, c, 0, |labels|), m))
  }

  /** Updating a second time from the same labels leaves the centroids as
      they are: the update depends on the previous centroids only for the
      clusters without members, which it keeps. */
  lemma UpdateIdempotent(points: seq<Vector>, labels: seq<int>, cents: seq<Vector>)
    requires AllPoints(points) && AllPoints(cents) && |labels| == |points|
    ensures UpdateCents(points, labels, UpdateCents(points, labels, cents)) == UpdateCents(points, labels, cents)
  {
  }

  /** Sum of the member counts of the clusters below `j`. */
  function CountsBelow(labels: seq<int>, j: nat, hi: nat): nat
    requires hi <= |labels|
  {
    if j == 0 then 0 else CountsBelow(labels, j - 1, hi) + MemberCount(labels, j - 1, 0, hi)
  }

  lemma {:induction false} CountsBelowStep(labels: seq<int>, j: nat, hi: nat)
    requires hi < |labels|
    ensures CountsBelow(labels, j, hi + 1)
            == CountsBelow(labels, j, hi) + (if 0 <= labels[hi] < j then 1 else 0)
  {
    if j > 0 {
      CountsBelowStep(labels, j - 1, hi);
    }
  }

  lemma {:induction false} CountsBelowPrefix(labels: seq<int>, k: nat, hi: nat)
    requires hi <= |labels| && LabelsIn(labels, k)
    ensures CountsBelow(labels, k, hi) == hi
  {
    if hi == 0 {
      CountsBelowZero(labels, k);
    } else {
      CountsBelowPrefix(labels, k, hi - 1);
      CountsBelowStep(labels, k, hi - 1);
    }
  }

  lemma {:induction false} CountsBelowZero(labels: seq<int>, j: nat)
    ensures CountsBelow(labels, j, 0) == 0
  {
    if j > 0 {
      CountsBelowZero(labels, j - 1);
    }
  }

  /** When every label is in [0, k), the member counts of the k clusters add up to n. */
  lemma CountsSumToN(labels: seq<int>, k: nat)
    requires LabelsIn(labels, k)
    ensures CountsBelow(labels, k, |labels|) == |labels|
  {
    CountsBelowPrefix(labels, k, |labels|);
  }

  lemma {:induction false} MemberSumOfIdentical(points: seq<Vector>, labels: seq<int>, c: int, p: Vector, hi: nat)
    requires hi <= |points| == |labels| && AllPoints(points) && IsPoint(p)
    requires forall i :: 0 <= i < hi && labels[i] == c ==> points[i] == p
    ensures forall f :: 0 <= f < Features ==>
      MemberSum(points, labels, c, 0, hi)[f] == MemberCount(labels, c, 0, hi) as real * p[f]
  {
    if hi > 0 {
      MemberSumOfIdentical(points, labels, c, p, hi - 1);
    }
  }

  lemma DivideProduct(m: real, x: real)
    requires m > 0.0
    ensures (m * x) / m == x
  {
  }

  lemma MeanOfMultiple(sum: Vector, m: nat, p: Vector)
    requires m > 0 && |sum| == |p|
    requires forall f :: 0 <= f < |p| ==> sum[f] == m as real * p[f]
    ensures Mean(sum, m) == p
  {
    forall f | 0 <= f < |p| ensures Mean(sum, m)[f] == p[f] {
      DivideProduct(m as real, p[f]);
    }
  }

  /** A cluster whose members are all the same point `p` gets `p` as its
      new centroid (one point maps to itself). */
  lemma MeanOfIdentical(points: seq<Vector>, labels: seq<int>, cents: seq<Vector>, c: nat, p: Vector)
    requires AllPoints(points) && AllPoints(cents) && |labels| == |points| && IsPoint(p)
    requires c < |cents|
    requires exists i :: 0 <= i < |labels| && labels[i] == c
    requires forall i :: 0 <= i < |labels| && labels[i] == c ==> points[i] == p
    ensures UpdateCents(points, labels, cents)[c] == p
  {
    var n := |labels|;
    var m := MemberCount(labels, c, 0, n);
    var i :| 0 <= i < n && labels[i] == c;
    MemberCountSplit(labels, c, 0, i + 1, n);
    assert m > 0;
    MemberSumOfIdentical(points, labels, c, p, n);
    MeanOfMultiple(MemberSum(points, labels, c, 0, n), m, p);
  }

  // ------------------------------------------------------------------ accuracy

  /** The sum of the distances from each point in [lo, hi) to its assigned centroid. */
  function TotalDist(sqrt: real -> real, points: seq<Vector>, labels: seq<int>,
                     cents: seq<Vector>, lo: nat, hi: nat): real
    requires AllPoints(points) && AllPoints(cents)
    requires lo <= hi <= |points| == |labels| && LabelsIn(labels, |cents|)
    decreases hi
  {
    if hi == lo then 0.0
    else TotalDist(sqrt, points, labels, cents, lo, hi - 1) + Distance(sqrt, points[hi - 1], cents[labels[hi - 1]])
  }

  lemma {:induction false} TotalDistSplit(sqrt: real -> real, points: seq<Vector>, labels: seq<int>,
                                          cents: seq<Vector>, lo: nat, mid: nat, hi: nat)
    requires AllPoints(points) && AllPoints(cents)
    requires lo <= mid <= hi <= |points| == |labels| && LabelsIn(labels, |cents|)
    ensures TotalDist(sqrt, points, labels, cents, lo, hi)
            == TotalDist(sqrt, points, labels, cents, lo, mid) + TotalDist(sqrt, points, labels, cents, mid, hi)
    decreases hi
  {
    if hi > mid {
      TotalDistSplit(sqrt, points, labels, cents, lo, mid, hi - 1);
    }
  }

  /** Accuracy: the mean distance from each point to its assigned centroid. */
  function Accuracy(sqrt: real -> real, points: seq<Vector>, labels: seq<int>,
                    cents: seq<Vector>): real
    requires AllPoints(points) && AllPoints(cents)
    requires 1 <= |points| == |labels| && LabelsIn(labels, |cents|)
  {
    TotalDist(sqrt, points, labels, cents, 0, |points|) / |points| as real
  }

  lemma {:induction false} TotalDistNonNegative(sqrt: real -> real, points: seq<Vector>,
                                                labels: seq<int>, cents: seq<Vector>, hi: nat)
    requires IsSqrt(sqrt) && AllPoints(points) && AllPoints(cents)
    requires hi <= |points| == |labels| && LabelsIn(labels, |cents|)
    ensures TotalDist(sqrt, points, labels, cents, 0, hi) >= 0.0
  {
    if hi > 0 {
      TotalDistNonNegative(sqrt, points, labels, cents, hi - 1);
      DistanceIsMetricLike(sqrt, points[hi - 1], cents[labels[hi - 1]]);
    }
  }

  /** With an exact square root the accuracy is never negative. */
  lemma AccuracyNonNegative(sqrt: real -> real, points: seq<Vector>,
                            labels: seq<int>, cents: seq<Vector>)
    requires IsSqrt(sqrt) && AllPoints(points) && AllPoints(cents)
    requires 1 <= |points| == |labels| && LabelsIn(labels, |cents|)
    ensures Accuracy(sqrt, points, labels, cents) >= 0.0
  {
    TotalDistNonNegative(sqrt, points, labels, cents, |points|);
  }

  /** With an exact square root the total distance is zero exactly when every point
      sits on its assigned centroid. */
  lemma {:induction false} TotalDistZeroIff(sqrt: real -> real, points: seq<Vector>,
                                            labels: seq<int>, cents: seq<Vector>, hi: nat)
    requires IsSqrt(sqrt) && AllPoints(points) && AllPoints(cents)
    requires hi <= |points| == |labels| && LabelsIn(labels, |cents|)
    ensures TotalDist(sqrt, points, labels, cents, 0, hi) == 0.0
            <==> forall i :: 0 <= i < hi ==> points[i] == cents[labels[i]]
  {
    if hi > 0 {
      TotalDistZeroIff(sqrt, points, labels, cents, hi - 1);
      TotalDistNonNegative(sqrt, points, labels, cents, hi - 1);
      DistanceIsMetricLike(sqrt, points[hi - 1], cents[labels[hi - 1]]);
    }
  }

  // -------------------------------------------------------------- partitions

  /** `bounds` splits [0, n) into the contiguous chunks
      [bounds[w], bounds[w + 1]) handed to the workers of a static schedule. */
  predicate IsPartition(bounds: seq<int>, n: int) {
    |bounds| >= 2 && bounds[0] == 0 && bounds[|bounds| - 1] == n &&
    forall a, b :: 0 <= a <= b < |bounds| ==> bounds[a] <= bounds[b]
  }
}
