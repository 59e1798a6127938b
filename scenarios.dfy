/** The cases the repository's unit tests check, stated on the model: the
    distance kernel on a few fixed vectors, one assignment step, the update
    step on filled, empty and single-member clusters, and the accuracy of a
    single point. Every test vector repeats one value in all Features
    coordinates, or differs from zero in its first coordinates only. */
module Scenarios {
  import opened Config
  import opened Geometry
  import opened Steps
  import opened Refinement

  /** The vector holding `x` in every feature. */
  function Const(x: real): (v: Vector)
    ensures IsPoint(v)
    ensures forall f :: 0 <= f < Features ==> v[f] == x
  {
    seq(Features, _ => x)
  }

  /** Two vectors that are constant, `x` and `y`, lie at squared distance
      |a| * (x - y)^2. */
  lemma {:induction false} SqDistConstant(a: Vector, b: Vector, x: real, y: real)
    requires |a| == |b|
    requires forall i :: 0 <= i < |a| ==> a[i] == x
    requires forall i :: 0 <= i < |b| ==> b[i] == y
    ensures SqDist(a, b) == |a| as real * Square(x - y)
    decreases |a|
  {
    if |a| > 0 {
      var i := |a| - 1;
      SqDistConstant(a[..i], b[..i], x, y);
    }
  }

  /** Features where two vectors agree add nothing to their squared distance. */
  lemma {:induction false} SqDistEqualTail(a: Vector, b: Vector, m: nat)
    requires m <= |a| == |b|
    requires forall j :: m <= j < |a| ==> a[j] == b[j]
    ensures SqDist(a, b) == SqDist(a[..m], b[..m])
    decreases |a|
  {
    if |a| > m {
      var i := |a| - 1;
      assert a[..i][..m] == a[..m] && b[..i][..m] == b[..m];
      SqDistEqualTail(a[..i], b[..i], m);
      assert Square(a[i] - b[i]) == 0.0;
    } else {
      assert a[..m] == a && b[..m] == b;
    }
  }

  /** The root of a perfect square is its non-negative base. */
  lemma RootOf(sqrt: real -> real, x: real, y: real)
    requires IsSqrt(sqrt) && y >= 0.0 && Square(y) == x
    ensures sqrt(x) == y
  {
    SquareZeroIff(y);
    SquareMonotone(sqrt(x), y);
    SquareMonotone(y, sqrt(x));
  }

  /** Unit difference in the first feature: distance 1. */
  lemma UnitDistance(sqrt: real -> real)
    requires IsSqrt(sqrt)
    ensures Distance(sqrt, Const(0.0), [1.0, 0.0, 0.0, 0.0, 0.0, 0.0, 0.0, 0.0]) == 1.0
  {
    var a, b := Const(0.0), [1.0, 0.0, 0.0, 0.0, 0.0, 0.0, 0.0, 0.0];
    SqDistEqualTail(a, b, 1);
    assert SqDist(a[..1], b[..1]) == SqDist(a[..0], b[..0]) + Square(0.0 - 1.0);
    RootOf(sqrt, 1.0, 1.0);
  }

  /** Unit difference in every feature: distance sqrt(Features). */
  lemma AllFeaturesDistance(sqrt: real -> real)
    requires IsSqrt(sqrt)
    ensures Distance(sqrt, Const(0.0), Const(1.0)) == sqrt(Features as real)
    ensures Square(Distance(sqrt, Const(0.0), Const(1.0))) == Features as real
  {
    SqDistConstant(Const(0.0), Const(1.0), 0.0, 1.0);
  }

  /** The 3-4-5 triangle in the first two features: distance 5. */
  lemma KnownDistance(sqrt: real -> real)
    requires IsSqrt(sqrt)
    ensures Distance(sqrt, Const(0.0), [3.0, 4.0, 0.0, 0.0, 0.0, 0.0, 0.0, 0.0]) == 5.0
  {
    var a, b := Const(0.0), [3.0, 4.0, 0.0, 0.0, 0.0, 0.0, 0.0, 0.0];
    SqDistEqualTail(a, b, 2);
    assert a[..2][..1] == a[..1] && b[..2][..1] == b[..1];
    assert SqDist(a[..1], b[..1]) == SqDist(a[..0], b[..0]) + Square(0.0 - 3.0);
    assert SqDist(a[..2], b[..2]) == SqDist(a[..1], b[..1]) + Square(0.0 - 4.0);
    RootOf(sqrt, 25.0, 5.0);
  }

  /** Coordinates -1 and 1 in the first feature: distance 2. */
  lemma NegativeCoordinates(sqrt: real -> real)
    requires IsSqrt(sqrt)
    ensures Distance(sqrt, [-1.0, 0.0, 0.0, 0.0, 0.0, 0.0, 0.0, 0.0],
                           [1.0, 0.0, 0.0, 0.0, 0.0, 0.0, 0.0, 0.0]) == 2.0
  {
    var a, b := [-1.0, 0.0, 0.0, 0.0, 0.0, 0.0, 0.0, 0.0], [1.0, 0.0, 0.0, 0.0, 0.0, 0.0, 0.0, 0.0];
    SqDistEqualTail(a, b, 1);
    assert SqDist(a[..1], b[..1]) == SqDist(a[..0], b[..0]) + Square(-1.0 - 1.0);
    RootOf(sqrt, 4.0, 2.0);
  }

  /** Points at 0 and 10 against centroids at 1 and 9, all labels unassigned:
      the first assignment labels them 0 and 1 and changes both labels; a
      second assignment with the same centroids changes none. */
  lemma AssignScenario()
    ensures var points, cents := [Const(0.0), Const(10.0)], [Const(1.0), Const(9.0)];
      Relabel(points, cents) == [0, 1] &&
      Changed([-1, -1], Relabel(points, cents), 0, 2) == 2 &&
      Changed(Relabel(points, cents), Relabel(points, cents), 0, 2) == 0
  {
    var points, cents := [Const(0.0), Const(10.0)], [Const(1.0), Const(9.0)];
    SqDistConstant(points[0], cents[0], 0.0, 1.0);
    SqDistConstant(points[0], cents[1], 0.0, 9.0);
    SqDistConstant(points[1], cents[0], 10.0, 1.0);
    SqDistConstant(points[1], cents[1], 10.0, 9.0);
    assert Scores(points[0], cents) == [8.0, 648.0];
    assert Scores(points[1], cents) == [648.0, 8.0];
    assert Nearest(points[0], cents) == 0;
    assert Nearest(points[1], cents) == 1;
    assert Relabel(points, cents) == [0, 1];
    SecondAssignmentChangesNothing(points, cents);
  }

  /** Adding constant vectors adds their values. */
  lemma AddConst(x: real, y: real)
    ensures VecAdd(Const(x), Const(y)) == Const(x + y)
  {
  }

  /** Dividing a constant vector divides its value. */
  lemma MeanConst(x: real, m: nat)
    requires m > 0
    ensures Mean(Const(x), m) == Const(x / m as real)
  {
  }

  /** One cluster holding the given points, all labelled `c`, sums to
      their feature-wise total. */
  lemma SumOfTwo(points: seq<Vector>, labels: seq<int>, c: int, x: real, y: real)
    requires |points| == |labels| >= 2 && AllPoints(points)
    requires points[0] == Const(x) && points[1] == Const(y) && labels[0] == c && labels[1] == c
    ensures MemberSum(points, labels, c, 0, 2) == Const(x + y)
    ensures MemberCount(labels, c, 0, 2) == 2
  {
    assert Zero() == Const(0.0);
    AddConst(0.0, x);
    AddConst(x, y);
    assert MemberSum(points, labels, c, 0, 1) == Const(x);
  }

  /** Clusters {1, 2} and {10, 12}: the centroids move to 1.5 and 11. */
  lemma UpdateScenario()
    ensures UpdateCents([Const(1.0), Const(2.0), Const(10.0), Const(12.0)], [0, 0, 1, 1],
                        [Const(0.0), Const(0.0)]) == [Const(1.5), Const(11.0)]
  {
    var points, labels := [Const(1.0), Const(2.0), Const(10.0), Const(12.0)], [0, 0, 1, 1];
    var r := UpdateCents(points, labels, [Const(0.0), Const(0.0)]);
    SumOfTwo(points, labels, 0, 1.0, 2.0);
    MemberSumSplit(points, labels, 0, 0, 2, 4);
    MemberCountSplit(labels, 0, 0, 2, 4);
    assert MemberSum(points, labels, 0, 2, 4) == Zero();
    VecAddZero(Const(3.0));
    assert r[0] == Mean(Const(3.0), 2);
    MeanConst(3.0, 2);
    SumOfTwo(points[2..], labels[2..], 1, 10.0, 12.0);
    SuffixSum(points, labels, 1, 2);
    MemberSumSplit(points, labels, 1, 0, 2, 4);
    MemberCountSplit(labels, 1, 0, 2, 4);
    assert MemberSum(points, labels, 1, 0, 2) == Zero();
    AddConst(0.0, 22.0);
    assert r[1] == Mean(Const(22.0), 2);
    MeanConst(22.0, 2);
  }

  /** Clusters {2, 4} and {10}, from any two starting centroids: the
      centroids move to 3 and 10. */
  lemma SequentialUpdateScenario(cents: seq<Vector>)
    requires |cents| == 2 && AllPoints(cents)
    ensures UpdateCents([Const(2.0), Const(4.0), Const(10.0)], [0, 0, 1], cents)
            == [Const(3.0), Const(10.0)]
  {
    var points, labels := [Const(2.0), Const(4.0), Const(10.0)], [0, 0, 1];
    var r := UpdateCents(points, labels, cents);
    SumOfTwo(points, labels, 0, 2.0, 4.0);
    MemberSumSplit(points, labels, 0, 0, 2, 3);
    MemberCountSplit(labels, 0, 0, 2, 3);
    assert MemberSum(points, labels, 0, 2, 3) == Zero();
    VecAddZero(Const(6.0));
    assert r[0] == Mean(Const(6.0), 2);
    MeanConst(6.0, 2);
    assert labels[2] == 1;
    MeanOfIdentical(points, labels, cents, 1, Const(10.0));
  }

  /** Counting and summing [m, m + 2) of a sequence is counting and summing
      [0, 2) of its suffix from m. */
  lemma SuffixSum(points: seq<Vector>, labels: seq<int>, c: int, m: nat)
    requires m + 2 <= |points| == |labels| && AllPoints(points)
    ensures MemberSum(points, labels, c, m, m + 2) == MemberSum(points[m..], labels[m..], c, 0, 2)
    ensures MemberCount(labels, c, m, m + 2) == MemberCount(labels[m..], c, 0, 2)
  {
    assert MemberSum(points, labels, c, m, m + 1) == MemberSum(points[m..], labels[m..], c, 0, 1);
  }

  /** All points in cluster 0, centroid 1 preset to 999: cluster 0 moves to
      the mean 6 of its points 5 and 7, and the empty cluster 1 keeps 999. */
  lemma EmptyClusterScenario()
    ensures UpdateCents([Const(5.0), Const(7.0)], [0, 0], [Const(0.0), Const(999.0)])
            == [Const(6.0), Const(999.0)]
  {
    var points, labels := [Const(5.0), Const(7.0)], [0, 0];
    var r := UpdateCents(points, labels, [Const(0.0), Const(999.0)]);
    SumOfTwo(points, labels, 0, 5.0, 7.0);
    assert r[0] == Mean(Const(12.0), 2);
    MeanConst(12.0, 2);
    assert MemberCount(labels, 1, 0, 2) == 0;
  }

  /** A single point labelled 0: the centroid becomes that point. */
  lemma SinglePointScenario()
    ensures UpdateCents([Const(3.14)], [0], [Const(0.0)]) == [Const(3.14)]
  {
    assert [0][0] == 0;
    MeanOfIdentical([Const(3.14)], [0], [Const(0.0)], 0, Const(3.14));
  }

  /** n >= 2 points alternating between 2 (even index, cluster 0) and 4 (odd
      index, cluster 1): the centroids become 2 and 4, however the points are
      split among workers. */
  lemma AlternatingScenario(n: nat)
    requires n >= 2
    ensures var points := seq(n, i => if i % 2 == 0 then Const(2.0) else Const(4.0));
            var labels := seq(n, i => i % 2);
            UpdateCents(points, labels, [Const(0.0), Const(0.0)]) == [Const(2.0), Const(4.0)]
  {
    var points := seq(n, i => if i % 2 == 0 then Const(2.0) else Const(4.0));
    var labels := seq(n, i => i % 2);
    var cents := [Const(0.0), Const(0.0)];
    assert labels[0] == 0 && labels[1] == 1;
    MeanOfIdentical(points, labels, cents, 0, Const(2.0));
    MeanOfIdentical(points, labels, cents, 1, Const(4.0));
  }

  /** One point at 0 assigned to a centroid at 1: the accuracy is sqrt(Features). */
  lemma AccuracyScenario(sqrt: real -> real)
    requires IsSqrt(sqrt)
    ensures Accuracy(sqrt, [Const(0.0)], [0], [Const(1.0)]) == sqrt(Features as real)
  {
    SqDistConstant(Const(0.0), Const(1.0), 0.0, 1.0);
    assert TotalDist(sqrt, [Const(0.0)], [0], [Const(1.0)], 0, 1) == 0.0 + Distance(sqrt, Const(0.0), Const(1.0));
  }

  // ------------------------------------------------- two points, two clusters

  /** The cluster of a constant point against two constant centroids: the
      second only when strictly closer. */
  lemma NearestOfTwo(x: real, a: real, b: real)
    ensures Nearest(Const(x), [Const(a), Const(b)]) == if Square(x - b) < Square(x - a) then 1 else 0
  {
    var cents := [Const(a), Const(b)];
    SqDistConstant(Const(x), cents[0], x, a);
    SqDistConstant(Const(x), cents[1], x, b);
    assert Scores(Const(x), cents) == [8.0 * Square(x - a), 8.0 * Square(x - b)];
  }

  /** Points 0 and 10 against constant centroids a and b. */
  lemma RelabelTwo(a: real, b: real)
    ensures Relabel([Const(0.0), Const(10.0)], [Const(a), Const(b)])
            == [if Square(0.0 - b) < Square(0.0 - a) then 1 else 0,
                if Square(10.0 - b) < Square(10.0 - a) then 1 else 0]
  {
    NearestOfTwo(0.0, a, b);
    NearestOfTwo(10.0, a, b);
  }

  /** Points 0 and 10 in separate clusters: each centroid moves onto its point. */
  lemma UpdateApart(cents: seq<Vector>)
    requires |cents| == 2 && AllPoints(cents)
    ensures UpdateCents([Const(0.0), Const(10.0)], [0, 1], cents) == [Const(0.0), Const(10.0)]
    ensures UpdateCents([Const(0.0), Const(10.0)], [1, 0], cents) == [Const(10.0), Const(0.0)]
  {
    var points := [Const(0.0), Const(10.0)];
    var apart, swapped := [0, 1], [1, 0];
    assert apart[0] == 0 && apart[1] == 1 && swapped[0] == 1 && swapped[1] == 0;
    MeanOfIdentical(points, apart, cents, 0, Const(0.0));
    MeanOfIdentical(points, apart, cents, 1, Const(10.0));
    MeanOfIdentical(points, swapped, cents, 0, Const(10.0));
    MeanOfIdentical(points, swapped, cents, 1, Const(0.0));
  }

  /** Points 0 and 10 both in cluster 0: it moves to 5, and the empty
      cluster 1 keeps its centroid. */
  lemma UpdateTogether(cents: seq<Vector>)
    requires |cents| == 2 && AllPoints(cents)
    ensures UpdateCents([Const(0.0), Const(10.0)], [0, 0], cents) == [Const(5.0), cents[1]]
  {
    var points, labels := [Const(0.0), Const(10.0)], [0, 0];
    SumOfTwo(points, labels, 0, 0.0, 10.0);
    MeanConst(10.0, 2);
    assert MemberCount(labels, 1, 0, 2) == 0;
  }

  /** Centroids sitting on the two points are a fixed point: the next
      iteration changes no label and stops. */
  lemma SettledTwo(labels: seq<int>, cents: seq<Vector>, budget: nat)
    requires (labels == [0, 1] && cents == [Const(0.0), Const(10.0)]) ||
             (labels == [1, 0] && cents == [Const(10.0), Const(0.0)])
    requires budget >= 1
    ensures Refine([Const(0.0), Const(10.0)], labels, cents, budget) == Outcome(labels, cents, 1, true)
  {
    var points := [Const(0.0), Const(10.0)];
    RelabelTwo(cents[0][0], cents[1][0]);
    UpdateApart(cents);
    ChangedZeroIff(labels, labels, 0, 2);
    RefineStep(points, labels, cents, budget, labels, cents, 0);
  }

  /** Seeds on different points: one iteration separates the points and
      the second confirms it. */
  lemma SeedsApart(cents: seq<Vector>, labels: seq<int>)
    requires (cents == [Const(0.0), Const(10.0)] && labels == [0, 1]) ||
             (cents == [Const(10.0), Const(0.0)] && labels == [1, 0])
    ensures Refine([Const(0.0), Const(10.0)], Reset(2), cents, MaxIter) == Outcome(labels, cents, 2, true)
  {
    var points := [Const(0.0), Const(10.0)];
    RelabelTwo(cents[0][0], cents[1][0]);
    UpdateApart(cents);
    assert Changed(Reset(2), labels, 0, 2) == 2;
    RefineStep(points, Reset(2), cents, MaxIter, labels, cents, 2);
    SettledTwo(labels, cents, MaxIter - 1);
  }

  /** Both seeds on the same point `x`: every distance ties, so both points
      go to cluster 0, which moves to 5, while the empty cluster 1 keeps `x`. */
  lemma FirstPassTogether(x: real)
    ensures Refine([Const(0.0), Const(10.0)], Reset(2), [Const(x), Const(x)], MaxIter)
            == Later(Refine([Const(0.0), Const(10.0)], [0, 0], [Const(5.0), Const(x)], MaxIter - 1), 1)
  {
    var points := [Const(0.0), Const(10.0)];
    RelabelTwo(x, x);
    UpdateTogether([Const(x), Const(x)]);
    assert Changed(Reset(2), [0, 0], 0, 2) == 2;
    RefineStep(points, Reset(2), [Const(x), Const(x)], MaxIter, [0, 0], [Const(5.0), Const(x)], 2);
  }

  /** After the first pass from two seeds at 0: the point at 0 is nearer the
      centroid left at 0 and moves to cluster 1, splitting the points. */
  lemma SecondPassFromZero(budget: nat)
    requires budget >= 2
    ensures Refine([Const(0.0), Const(10.0)], [0, 0], [Const(5.0), Const(0.0)], budget)
            == Later(Refine([Const(0.0), Const(10.0)], [1, 0], [Const(10.0), Const(0.0)], budget - 1), 1)
  {
    var points := [Const(0.0), Const(10.0)];
    RelabelTwo(5.0, 0.0);
    UpdateApart([Const(5.0), Const(0.0)]);
    assert Changed([0, 0], [1, 0], 0, 2) == 1;
    RefineStep(points, [0, 0], [Const(5.0), Const(0.0)], budget, [1, 0], [Const(10.0), Const(0.0)], 1);
  }

  /** After the first pass from two seeds at 10: the point at 10 is nearer the
      centroid left at 10 and moves to cluster 1, splitting the points. */
  lemma SecondPassFromTen(budget: nat)
    requires budget >= 2
    ensures Refine([Const(0.0), Const(10.0)], [0, 0], [Const(5.0), Const(10.0)], budget)
            == Later(Refine([Const(0.0), Const(10.0)], [0, 1], [Const(0.0), Const(10.0)], budget - 1), 1)
  {
    var points := [Const(0.0), Const(10.0)];
    RelabelTwo(5.0, 10.0);
    UpdateApart([Const(5.0), Const(10.0)]);
    assert Changed([0, 0], [0, 1], 0, 2) == 1;
    RefineStep(points, [0, 0], [Const(5.0), Const(10.0)], budget, [0, 1], [Const(0.0), Const(10.0)], 1);
  }

  /** The two seeds of a restart, each one of the two points. */
  lemma SeedOfTwo(rand: nat -> nat, base: nat)
    ensures Seed([Const(0.0), Const(10.0)], 2, rand, base)
            == [[Const(0.0), Const(10.0)][rand(base) % 2], [Const(0.0), Const(10.0)][rand(base + 1) % 2]]
  {
  }

  /** A restart whose two `rand` calls, from call number `base`, pick the
      points `i0` and `i1`: the point at 10 ends in cluster `i1` and the point
      at 0 in the other, each on its own centroid, after 2 iterations when
      the seeds differ and 3 when they coincide. */
  lemma RefineFromSeeds(rand: nat -> nat, base: nat)
    ensures var i0, i1 := rand(base) % 2, rand(base + 1) % 2;
            Refine([Const(0.0), Const(10.0)], Reset(2), Seed([Const(0.0), Const(10.0)], 2, rand, base), MaxIter)
            == if i1 == 1 then Outcome([0, 1], [Const(0.0), Const(10.0)], if i0 == i1 then 3 else 2, true)
               else Outcome([1, 0], [Const(10.0), Const(0.0)], if i0 == i1 then 3 else 2, true)
  {
    var i0, i1 := rand(base) % 2, rand(base + 1) % 2;
    var seeds := Seed([Const(0.0), Const(10.0)], 2, rand, base);
    SeedOfTwo(rand, base);
    if i0 == 0 && i1 == 1 {
      SeedsApart(seeds, [0, 1]);
    } else if i0 == 1 && i1 == 0 {
      SeedsApart(seeds, [1, 0]);
    } else if i0 == 0 {
      FirstPassTogether(0.0);
      SecondPassFromZero(MaxIter - 1);
      SettledTwo([1, 0], [Const(10.0), Const(0.0)], MaxIter - 2);
    } else {
      FirstPassTogether(10.0);
      SecondPassFromTen(MaxIter - 1);
      SettledTwo([0, 1], [Const(0.0), Const(10.0)], MaxIter - 2);
    }
  }

  /** Both points on their own centroids, in either numbering: the accuracy is 0. */
  lemma AccuracyApart(sqrt: real -> real)
    requires IsSqrt(sqrt)
    ensures Accuracy(sqrt, [Const(0.0), Const(10.0)], [0, 1], [Const(0.0), Const(10.0)]) == 0.0
    ensures Accuracy(sqrt, [Const(0.0), Const(10.0)], [1, 0], [Const(10.0), Const(0.0)]) == 0.0
  {
    var points, apart, swapped := [Const(0.0), Const(10.0)], [0, 1], [1, 0];
    assert forall i :: 0 <= i < 2 ==> points[i] == points[apart[i]];
    TotalDistZeroIff(sqrt, points, apart, points, 2);
    assert forall i :: 0 <= i < 2 ==> points[i] == [points[1], points[0]][swapped[i]];
    TotalDistZeroIff(sqrt, points, swapped, [points[1], points[0]], 2);
  }

  /** Restart `r` on points 0 and 10 with k = 2: the outcome of a refinement
      from the two points its two `rand` calls pick. */
  lemma TwoPointOutcome(rand: nat -> nat, r: nat)
    ensures var base := RandBase(r, 2);
            var i0, i1 := rand(base) % 2, rand(base + 1) % 2;
            RestartOutcome([Const(0.0), Const(10.0)], 2, rand, r)
            == if i1 == 1 then Outcome([0, 1], [Const(0.0), Const(10.0)], if i0 == i1 then 3 else 2, true)
               else Outcome([1, 0], [Const(10.0), Const(0.0)], if i0 == i1 then 3 else 2, true)
  {
    RefineFromSeeds(rand, RandBase(r, 2));
  }

  /** Points at 0 and 10 with k = 2, for every `rand` stream and every
      restart: the restart separates the two points, the point at 10 in the
      cluster of the second seed, and each ends on its own centroid, so its
      accuracy is 0. It converges after 2 iterations when the two seeds are
      different points, and after 3 when both seeds pick the same point: the
      first iteration then puts both points in cluster 0 and leaves cluster 1
      empty. */
  lemma TwoPointRestart(sqrt: real -> real, rand: nat -> nat, r: nat)
    requires IsSqrt(sqrt)
    ensures var points := [Const(0.0), Const(10.0)];
            var out := RestartOutcome(points, 2, rand, r);
            var base := RandBase(r, 2);
            out.converged && out.labels[0] != out.labels[1] && out.labels[1] == rand(base + 1) % 2 &&
            Accuracy(sqrt, points, out.labels, out.cents) == 0.0 &&
            (rand(base) % 2 != rand(base + 1) % 2 ==> out.iters == 2) &&
            (rand(base) % 2 == rand(base + 1) % 2 ==> out.iters == 3)
  {
    TwoPointOutcome(rand, r);
    AccuracyApart(sqrt);
  }
}
