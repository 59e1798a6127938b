/** Feature vectors, the distance kernel and the first-minimum selection
    that the assignment step uses. Features are exact reals. */
module Geometry {
  import opened Config

  /** One point or centroid: a row of Features values. */
  type Vector = seq<real>

  predicate IsPoint(v: Vector) {
    |v| == Features
  }

  /** Every row of `rows` has Features entries. */
  predicate AllPoints(rows: seq<Vector>) {
    forall i :: 0 <= i < |rows| ==> IsPoint(rows[i])
  }

  /** The all-zero vector that resets an accumulator. */
  function Zero(): (z: Vector)
    ensures IsPoint(z)
  {
    seq(Features, _ => 0.0)
  }

  /** Element-wise sum: `acc[f] += x[f]` for every feature f. */
  function VecAdd(a: Vector, b: Vector): (r: Vector)
    requires |a| == |b|
    ensures |r| == |a|
  {
    seq(|a|, f requires 0 <= f < |a| => a[f] + b[f])
  }

  /** Element-wise division of a feature sum by a member count. */
  function Mean(sum: Vector, count: nat): (r: Vector)
    requires count > 0
    ensures |r| == |sum|
  {
    seq(|sum|, f requires 0 <= f < |sum| => sum[f] / count as real)
  }

  /** The squared Euclidean distance, accumulated from the first feature to
      the last, as the loop of the distance kernel adds its terms. */
  function SqDist(a: Vector, b: Vector): real
    requires |a| == |b|
    decreases |a|
  {
    if |a| == 0 then 0.0
    else
      var i := |a| - 1;
      SqDist(a[..i], b[..i]) + Square(a[i] - b[i])
  }

  function Square(x: real): real {
    x * x
  }

  lemma {:induction false} SqDistNonNegative(a: Vector, b: Vector)
    requires |a| == |b|
    ensures SqDist(a, b) >= 0.0
    decreases |a|
  {
    if |a| > 0 {
      var i := |a| - 1;
      SqDistNonNegative(a[..i], b[..i]);
    }
  }

  lemma {:induction false} SqDistSymmetric(a: Vector, b: Vector)
    requires |a| == |b|
    ensures SqDist(a, b) == SqDist(b, a)
    decreases |a|
  {
    if |a| > 0 {
      var i := |a| - 1;
      SqDistSymmetric(a[..i], b[..i]);
      assert Square(a[i] - b[i]) == Square(b[i] - a[i]);
    }
  }

  /** The squared distance is zero exactly when the two vectors are identical. */
  lemma {:induction false} SqDistZeroIff(a: Vector, b: Vector)
    requires |a| == |b|
    ensures SqDist(a, b) == 0.0 <==> a == b
    decreases |a|
  {
    if |a| > 0 {
      var i := |a| - 1;
      SqDistZeroIff(a[..i], b[..i]);
      SqDistNonNegative(a[..i], b[..i]);
      var d := a[i] - b[i];
      SquareZeroIff(d);
      assert SqDist(a, b) == SqDist(a[..i], b[..i]) + Square(d);
      assert a == a[..i] + [a[i]] && b == b[..i] + [b[i]];
      if a == b {
        assert a[..i] == b[..i] && d == 0.0;
      } else if a[..i] != b[..i] {
        assert SqDist(a[..i], b[..i]) > 0.0;
      } else {
        assert Square(d) > 0.0;
      }
    }
  }

  /** The distance kernel without its final square root: the sum of squared
      per-feature differences, accumulated in one pass over the features. */
  method SquaredDistance(a: Vector, b: Vector) returns (sum: real)
    requires IsPoint(a) && IsPoint(b)
    ensures sum == SqDist(a, b)
  {
    sum := 0.0;
    var i := 0;
    while i < Features
      invariant 0 <= i <= Features
      invariant sum == SqDist(a[..i], b[..i])
    {
      var diff := a[i] - b[i];
      sum := sum + diff * diff;
      i := i + 1;
      assert a[..i][..i - 1] == a[..i - 1] && b[..i][..i - 1] == b[..i - 1];
    }
    assert a[..Features] == a && b[..Features] == b;
  }

  /** `sqrt` behaves as the square root on the non-negative reals (the
      kernel's `sqrtf`, taken exactly). */
  ghost predicate IsSqrt(sqrt: real -> real) {
    forall x {:trigger sqrt(x)} :: x >= 0.0 ==> sqrt(x) >= 0.0 && Square(sqrt(x)) == x
  }

  /** The Euclidean distance the kernel returns: the root of the squared distance. */
  function Distance(sqrt: real -> real, a: Vector, b: Vector): real
    requires |a| == |b|
  {
    sqrt(SqDist(a, b))
  }

  /** The distance kernel: one pass over the features, then the root. */
  method DistancePt(sqrt: real -> real, a: Vector, b: Vector) returns (d: real)
    requires IsPoint(a) && IsPoint(b)
    ensures d == Distance(sqrt, a, b)
  {
    var sum := SquaredDistance(a, b);
    d := sqrt(sum);
  }

  /** The distance is non-negative, symmetric, and zero exactly between identical vectors. */
  lemma DistanceIsMetricLike(sqrt: real -> real, a: Vector, b: Vector)
    requires IsSqrt(sqrt) && |a| == |b|
    ensures Distance(sqrt, a, b) >= 0.0
    ensures Distance(sqrt, a, b) == Distance(sqrt, b, a)
    ensures Distance(sqrt, a, b) == 0.0 <==> a == b
  {
    SqDistNonNegative(a, b);
    SqDistSymmetric(a, b);
    SqDistZeroIff(a, b);
    var d := Distance(sqrt, a, b);
    assert d >= 0.0 && Square(d) == SqDist(a, b);
    SquareZeroIff(d);
  }

  /** The index of the first minimum of `s[..j]`: a scan from index 0 that
      replaces the current best only on a strictly smaller value. */
  function FirstMin(s: seq<real>, j: nat): (m: nat)
    requires 1 <= j <= |s|
    ensures m < j
    decreases j
  {
    if j == 1 then 0
    else
      var b := FirstMin(s, j - 1);
      if s[j - 1] < s[b] then j - 1 else b
  }

  /** One more step of the scan: index j replaces the best so far only
      when strictly smaller. */
  lemma FirstMinStep(s: seq<real>, j: nat)
    requires 1 <= j < |s|
    ensures FirstMin(s, j + 1) == if s[j] < s[FirstMin(s, j)] then j else FirstMin(s, j)
  {
  }

  /** The scan finds a minimum of `s[..j]`, and every index before it holds
      a strictly larger value. */
  lemma {:induction false} FirstMinIsMin(s: seq<real>, j: nat)
    requires 1 <= j <= |s|
    ensures forall c :: 0 <= c < j ==> s[FirstMin(s, j)] <= s[c]
    ensures forall c :: 0 <= c < FirstMin(s, j) ==> s[FirstMin(s, j)] < s[c]
    decreases j
  {
    if j > 1 {
      FirstMinIsMin(s, j - 1);
    }
  }

  /** The three properties of FirstMin determine it: it is the least index
      of a minimum. */
  lemma FirstMinUnique(s: seq<real>, j: nat, m: nat)
    requires 1 <= j <= |s| && m < j
    requires forall c :: 0 <= c < j ==> s[m] <= s[c]
    requires forall c :: 0 <= c < m ==> s[m] < s[c]
    ensures FirstMin(s, j) == m
  {
    var f := FirstMin(s, j);
    FirstMinIsMin(s, j);
    assert s[f] == s[m];
  }

  /** Two score sequences that order every pair of indices the same way
      have the same first minimum. */
  lemma FirstMinOrderInvariant(s: seq<real>, t: seq<real>, j: nat)
    requires 1 <= j <= |s| == |t|
    requires forall a, b :: 0 <= a < j && 0 <= b < j ==> (s[a] < s[b] <==> t[a] < t[b])
    ensures FirstMin(s, j) == FirstMin(t, j)
  {
    var m := FirstMin(s, j);
    FirstMinIsMin(s, j);
    forall c | 0 <= c < j ensures t[m] <= t[c] {
      assert !(s[c] < s[m]);
    }
    FirstMinUnique(t, j, m);
  }

  /** Squared distances from `p` to each centroid, in centroid order. */
  function Scores(p: Vector, cents: seq<Vector>): (s: seq<real>)
    requires IsPoint(p) && AllPoints(cents)
    ensures |s| == |cents|
  {
    seq(|cents|, c requires 0 <= c < |cents| => SqDist(p, cents[c]))
  }

  /** The cluster the assignment step gives to `p`: the lowest index among
      the centroids at minimum distance. */
  function Nearest(p: Vector, cents: seq<Vector>): (c: nat)
    requires IsPoint(p) && AllPoints(cents) && |cents| >= 1
    ensures c < |cents|
  {
    FirstMin(Scores(p, cents), |cents|)
  }

  /** Nearest is the closest centroid, and every centroid before it is
      strictly farther (ties go to the lowest index). */
  lemma NearestIsClosest(p: Vector, cents: seq<Vector>)
    requires IsPoint(p) && AllPoints(cents) && |cents| >= 1
    ensures forall c :: 0 <= c < |cents| ==>
      SqDist(p, cents[Nearest(p, cents)]) <= SqDist(p, cents[c])
    ensures forall c :: 0 <= c < Nearest(p, cents) ==>
      SqDist(p, cents[Nearest(p, cents)]) < SqDist(p, cents[c])
  {
    var s := Scores(p, cents);
    var m := Nearest(p, cents);
    FirstMinIsMin(s, |cents|);
    forall c | 0 <= c < |cents| ensures SqDist(p, cents[m]) <= SqDist(p, cents[c]) {
      assert s[m] <= s[c];
    }
    forall c | 0 <= c < m ensures SqDist(p, cents[m]) < SqDist(p, cents[c]) {
      assert s[m] < s[c];
    }
  }

  lemma PositiveProduct(a: real, b: real)
    requires a > 0.0 && b > 0.0
    ensures a * b > 0.0
  {
  }

  lemma DifferenceOfSquares(x: real, y: real)
    ensures (y - x) * (y + x) == y * y - x * x
  {
  }

  lemma ProductsGrow(x: real, y: real)
    requires 0.0 <= x < y
    ensures x * x < y * y
  {
    PositiveProduct(y - x, y + x);
    DifferenceOfSquares(x, y);
  }

  /** Squaring is strictly increasing on the non-negative reals. */
  lemma SquareGrows(x: real, y: real)
    requires 0.0 <= x < y
    ensures Square(x) < Square(y)
  {
    ProductsGrow(x, y);
  }

  lemma SquareZeroIff(d: real)
    ensures Square(d) >= 0.0
    ensures d != 0.0 ==> Square(d) > 0.0
  {
    if d > 0.0 {
      SquareGrows(0.0, d);
    } else if d < 0.0 {
      SquareGrows(0.0, -d);
      assert Square(-d) == Square(d);
    }
  }

  /** For non-negative reals, comparing values and comparing their squares agree. */
  lemma SquareMonotone(x: real, y: real)
    requires x >= 0.0 && y >= 0.0
    ensures x < y <==> Square(x) < Square(y)
  {
    if x < y {
      SquareGrows(x, y);
    } else if y < x {
      SquareGrows(y, x);
    }
  }

  /** The root preserves the order of non-negative reals. */
  lemma RootedOrder(sqrt: real -> real, x: real, y: real)
    requires IsSqrt(sqrt) && x >= 0.0 && y >= 0.0
    ensures sqrt(x) < sqrt(y) <==> x < y
  {
    var rx, ry := sqrt(x), sqrt(y);
    assert rx >= 0.0 && Square(rx) == x;
    assert ry >= 0.0 && Square(ry) == y;
    SquareMonotone(rx, ry);
  }

  /** Distances from `p` to each centroid, in centroid order. */
  function Distances(sqrt: real -> real, p: Vector, cents: seq<Vector>): (t: seq<real>)
    requires IsPoint(p) && AllPoints(cents)
    ensures |t| == |cents|
  {
    seq(|cents|, c requires 0 <= c < |cents| => Distance(sqrt, p, cents[c]))
  }

  /** The inner loop of the assignment step: centroid 0 is taken first, a
      later one only when strictly closer than the best so far. */
  method ScanNearest(sqrt: real -> real, p: Vector, cents: seq<Vector>) returns (best: nat)
    requires IsPoint(p) && |cents| >= 1 && AllPoints(cents)
    ensures best == FirstMin(Distances(sqrt, p, cents), |cents|)
  {
    ghost var t := Distances(sqrt, p, cents);
    best := 0;
    var bestDist := 0.0;
    var c := 0;
    while c < |cents|
      invariant 0 <= c <= |cents|
      invariant c >= 1 ==> best == FirstMin(t, c)
      invariant c >= 1 ==> best < c && bestDist == t[best]
    {
      var d := DistancePt(sqrt, p, cents[c]);
      if c >= 1 {
        FirstMinStep(t, c);
      }
      if c == 0 || d < bestDist {
        bestDist := d;
        best := c;
      }
      c := c + 1;
    }
  }

  /** Choosing the nearest centroid by the rooted distance, as the kernel
      does, picks the same centroid as choosing it by the squared distance. */
  lemma NearestByDistance(sqrt: real -> real, p: Vector, cents: seq<Vector>)
    requires IsSqrt(sqrt)
    requires IsPoint(p) && AllPoints(cents) && |cents| >= 1
    ensures FirstMin(Distances(sqrt, p, cents), |cents|) == Nearest(p, cents)
  {
    var t := Distances(sqrt, p, cents);
    var s := Scores(p, cents);
    forall a, b | 0 <= a < |cents| && 0 <= b < |cents| ensures t[a] < t[b] <==> s[a] < s[b] {
      SqDistNonNegative(p, cents[a]);
      SqDistNonNegative(p, cents[b]);
      RootedOrder(sqrt, SqDist(p, cents[a]), SqDist(p, cents[b]));
    }
    FirstMinOrderInvariant(t, s, |cents|);
  }
}
