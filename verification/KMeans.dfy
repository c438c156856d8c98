/**
 * Lloyd's k-means on flat slabs. One step assigns every point to its nearest centroid, averages
 * each cluster, and re-seeds an empty cluster from the old centroid of the largest one. Over the
 * reals, with the Euclidean metric, a step never increases the within-cluster sum of squares.
 */
module KMeans {
  import opened Core
  import opened Slab
  import opened TopK
  import opened Vectors

  const MAX_KMEANS_ITER: nat := 25
  const KMEANS_TOL: real := 0.0001

  /** Every row has `dim` components. */
  ghost predicate Shaped(rows: seq<Vector>, dim: nat) {
    forall i | 0 <= i < |rows| :: |rows[i]| == dim
  }

  // --- What one step computes --------------------------------------------------------

  /** `min_by` over the centroids: the first of the nearest. */
  function Nearest(cents: seq<Vector>, dist: Distance, v: Vector): (c: nat)
    requires cents != []
    ensures c < |cents|
  {
    if |cents| == 1 then 0
    else
      var n := |cents| - 1;
      var c := Nearest(cents[..n], dist, v);
      if dist(v, cents[n]) < dist(v, cents[c]) then n else c
  }

  lemma {:induction false} NearestIsMinimal(cents: seq<Vector>, dist: Distance, v: Vector)
    requires cents != []
    ensures forall j | 0 <= j < |cents| :: dist(v, cents[Nearest(cents, dist, v)]) <= dist(v, cents[j])
    ensures forall j | 0 <= j < Nearest(cents, dist, v) :: dist(v, cents[j]) > dist(v, cents[Nearest(cents, dist, v)])
  {
    if |cents| > 1 {
      var n := |cents| - 1;
      NearestIsMinimal(cents[..n], dist, v);
      assert forall j | 0 <= j < n :: cents[..n][j] == cents[j];
    }
  }

  function Assign(points: seq<Vector>, cents: seq<Vector>, dist: Distance): (a: seq<nat>)
    requires cents != []
    ensures |a| == |points|
    ensures forall i | 0 <= i < |a| :: a[i] == Nearest(cents, dist, points[i])
  {
    if points == [] then []
    else Assign(points[..|points| - 1], cents, dist) + [Nearest(cents, dist, points[|points| - 1])]
  }

  /** Number of points assigned to cluster `c`. */
  ghost function Count(a: seq<nat>, c: nat): nat {
    if a == [] then 0 else Count(a[..|a| - 1], c) + if a[|a| - 1] == c then 1 else 0
  }

  /** Sum of the points assigned to cluster `c`. */
  ghost function Sum(points: seq<Vector>, a: seq<nat>, c: nat, dim: nat): (s: Vector)
    requires |points| == |a| && Shaped(points, dim)
    ensures |s| == dim
  {
    if a == [] then Zero(dim)
    else
      var n := |a| - 1;
      var s := Sum(points[..n], a[..n], c, dim);
      if a[n] == c then Add(s, points[n]) else s
  }

  /** `max_by_key` over the counts: the last of the largest. */
  function Largest(counts: seq<nat>): (c: nat)
    requires counts != []
    ensures c < |counts|
  {
    if |counts| == 1 then 0
    else
      var n := |counts| - 1;
      var c := Largest(counts[..n]);
      if counts[n] >= counts[c] then n else c
  }

  lemma {:induction false} LargestIsMaximal(counts: seq<nat>)
    requires counts != []
    ensures forall j | 0 <= j < |counts| :: counts[j] <= counts[Largest(counts)]
    ensures forall j | Largest(counts) < j < |counts| :: counts[j] < counts[Largest(counts)]
  {
    if |counts| > 1 {
      var n := |counts| - 1;
      LargestIsMaximal(counts[..n]);
      assert forall j | 0 <= j < n :: counts[..n][j] == counts[j];
    }
  }

  ghost function Counts(a: seq<nat>, k: nat): (s: seq<nat>)
    ensures |s| == k && forall c | 0 <= c < k :: s[c] == Count(a, c)
  {
    seq(k, c requires 0 <= c < k => Count(a, c))
  }

  /** Centroid `c` after one iteration: the mean of its cluster, or the largest cluster's old centroid. */
  ghost predicate Recentred(points: seq<Vector>, cents: seq<Vector>, a: seq<nat>, next: Vector, dim: nat, c: nat)
    requires |points| == |a| && Shaped(points, dim) && c < |cents|
  {
    next == if Count(a, c) == 0 then cents[Largest(Counts(a, |cents|))]
            else Divide(Sum(points, a, c, dim), Count(a, c) as real)
  }

  /** `next` is the result of one Lloyd iteration from `cents`. */
  ghost predicate LloydStep(points: seq<Vector>, cents: seq<Vector>, next: seq<Vector>, dist: Distance, dim: nat)
    requires cents != [] && Shaped(points, dim)
  {
    && |next| == |cents|
    && forall c | 0 <= c < |cents| :: Recentred(points, cents, Assign(points, cents, dist), next[c], dim, c)
  }

  // --- The descent --------------------------------------------------------------------

  /** The metric is the Euclidean distance: the non-negative root of the sum of squares. */
  ghost predicate Euclidean(dist: Distance) {
    forall a: Vector, b: Vector | |a| == |b| :: dist(a, b) >= 0.0 && Square(dist(a, b)) == SqDist(a, b)
  }

  /** Within-cluster sum of squares of an assignment. */
  ghost function Cost(points: seq<Vector>, cents: seq<Vector>, a: seq<nat>, dim: nat): real
    requires |points| == |a| && Shaped(points, dim) && Shaped(cents, dim)
    requires forall i | 0 <= i < |a| :: a[i] < |cents|
  {
    if a == [] then 0.0
    else
      var n := |a| - 1;
      Cost(points[..n], cents, a[..n], dim) + SqDist(points[n], cents[a[n]])
  }

  /** The objective: every point charged to its best centroid. */
  ghost function Inertia(points: seq<Vector>, cents: seq<Vector>, dist: Distance, dim: nat): real
    requires cents != [] && Shaped(points, dim) && Shaped(cents, dim)
  {
    Cost(points, cents, Assign(points, cents, dist), dim)
  }

  /** What cluster `c` costs when its centroid is `y`. */
  ghost function ClusterCost(points: seq<Vector>, a: seq<nat>, c: nat, y: Vector, dim: nat): real
    requires |points| == |a| && Shaped(points, dim) && |y| == dim
  {
    if a == [] then 0.0
    else
      var n := |a| - 1;
      ClusterCost(points[..n], a[..n], c, y, dim) + if a[n] == c then SqDist(points[n], y) else 0.0
  }

  /** Sum of squared norms of the points of cluster `c`. */
  ghost function Norms(points: seq<Vector>, a: seq<nat>, c: nat): real
    requires |points| == |a|
  {
    if a == [] then 0.0
    else
      var n := |a| - 1;
      Norms(points[..n], a[..n], c) + if a[n] == c then Dot(points[n], points[n]) else 0.0
  }

  lemma {:induction false} ClusterCostExpands(points: seq<Vector>, a: seq<nat>, c: nat, y: Vector, dim: nat)
    requires |points| == |a| && Shaped(points, dim) && |y| == dim
    ensures ClusterCost(points, a, c, y, dim)
         == Norms(points, a, c) - 2.0 * Dot(Sum(points, a, c, dim), y) + Scale(Count(a, c), Dot(y, y))
  {
    if a == [] {
      DotZero(y);
    } else {
      var n := |a| - 1;
      ClusterCostExpands(points[..n], a[..n], c, y, dim);
      if a[n] == c {
        DotAdd(Sum(points[..n], a[..n], c, dim), points[n], y);
        SqDistExpands(points[n], y);
      }
    }
  }

  /** Moving a cluster's centroid from `y` to the mean saves exactly `count * |mean - y|^2`. */
  lemma MeanSaves(points: seq<Vector>, a: seq<nat>, c: nat, y: Vector, dim: nat)
    requires |points| == |a| && Shaped(points, dim) && |y| == dim && Count(a, c) > 0
    ensures var mean := Divide(Sum(points, a, c, dim), Count(a, c) as real);
            ClusterCost(points, a, c, y, dim)
            == ClusterCost(points, a, c, mean, dim) + Scale(Count(a, c), SqDist(mean, y))
  {
    var n := Count(a, c);
    var mean := Divide(Sum(points, a, c, dim), n as real);
    ClusterCostExpands(points, a, c, y, dim);
    ClusterCostExpands(points, a, c, mean, dim);
    MeanDot(Sum(points, a, c, dim), n, y);
    MeanDot(Sum(points, a, c, dim), n, mean);
    SqDistExpands(mean, y);
    ScaleCombination(n, Dot(mean, mean), Dot(mean, y), Dot(y, y));
  }

  lemma MeanDot(sum: Vector, n: nat, y: Vector)
    requires n > 0 && |sum| == |y|
    ensures Scale(n, Dot(Divide(sum, n as real), y)) == Dot(sum, y)
  {
    DotDivide(sum, n as real, y);
    ScaleIsProduct(n, Dot(Divide(sum, n as real), y));
  }

  /** Only a cluster's own cost changes when its centroid is replaced. */
  lemma {:induction false} ReplaceCentroid(points: seq<Vector>, cents: seq<Vector>, a: seq<nat>, c: nat, y: Vector,
                                           dim: nat)
    requires |points| == |a| && Shaped(points, dim) && Shaped(cents, dim) && |y| == dim && c < |cents|
    requires forall i | 0 <= i < |a| :: a[i] < |cents|
    ensures Cost(points, cents[c := y], a, dim) - ClusterCost(points, a, c, y, dim)
         == Cost(points, cents, a, dim) - ClusterCost(points, a, c, cents[c], dim)
  {
    if a != [] {
      var n := |a| - 1;
      ReplaceCentroid(points[..n], cents, a[..n], c, y, dim);
    }
  }

  lemma {:induction false} EmptyClusterIsFree(points: seq<Vector>, a: seq<nat>, c: nat, y: Vector, dim: nat)
    requires |points| == |a| && Shaped(points, dim) && |y| == dim && Count(a, c) == 0
    ensures ClusterCost(points, a, c, y, dim) == 0.0
  {
    if a != [] {
      var n := |a| - 1;
      EmptyClusterIsFree(points[..n], a[..n], c, y, dim);
    }
  }

  /** Replacing one centroid as a step does never increases that cluster's cost. */
  lemma UpdateHelps(points: seq<Vector>, cents: seq<Vector>, next: seq<Vector>, dist: Distance, dim: nat, c: nat)
    requires cents != [] && Shaped(points, dim) && Shaped(cents, dim) && Shaped(next, dim)
    requires LloydStep(points, cents, next, dist, dim) && c < |cents|
    ensures var a := Assign(points, cents, dist);
            ClusterCost(points, a, c, next[c], dim) <= ClusterCost(points, a, c, cents[c], dim)
  {
    var a := Assign(points, cents, dist);
    assert Recentred(points, cents, a, next[c], dim, c);
    if Count(a, c) == 0 {
      EmptyClusterIsFree(points, a, c, next[c], dim);
      EmptyClusterIsFree(points, a, c, cents[c], dim);
    } else {
      MeanSaves(points, a, c, cents[c], dim);
      SqDistNonNegative(next[c], cents[c]);
      ScaleNonNegative(Count(a, c), SqDist(next[c], cents[c]));
    }
  }

  /** The first `m` centroids of a step already replaced. */
  ghost function Mixed(cents: seq<Vector>, next: seq<Vector>, m: nat): (r: seq<Vector>)
    requires |cents| == |next| && m <= |cents|
    ensures |r| == |cents|
    ensures forall i | 0 <= i < |r| :: r[i] == if i < m then next[i] else cents[i]
  {
    next[..m] + cents[m..]
  }

  /** Replacing centroids one at a time, each no worse for its own cluster, never increases the cost. */
  lemma {:induction false} UpdatesDescend(points: seq<Vector>, cents: seq<Vector>, next: seq<Vector>, a: seq<nat>,
                                          dim: nat, m: nat)
    requires |points| == |a| && Shaped(points, dim) && Shaped(cents, dim) && Shaped(next, dim)
    requires m <= |cents| == |next|
    requires forall i | 0 <= i < |a| :: a[i] < |cents|
    requires forall c | 0 <= c < |cents| ::
               ClusterCost(points, a, c, next[c], dim) <= ClusterCost(points, a, c, cents[c], dim)
    ensures Cost(points, Mixed(cents, next, m), a, dim) <= Cost(points, cents, a, dim)
  {
    if m == 0 {
      assert Mixed(cents, next, 0) == cents;
    } else {
      var c := m - 1;
      UpdatesDescend(points, cents, next, a, dim, c);
      ReplaceCentroid(points, Mixed(cents, next, c), a, c, next[c], dim);
      assert Mixed(cents, next, m) == Mixed(cents, next, c)[c := next[c]];
    }
  }

  lemma SquareOrder(x: real, y: real)
    requires 0.0 <= x <= y
    ensures Square(x) <= Square(y)
  {
    assert (y - x) * (y + x) >= 0.0;
    assert (y - x) * (y + x) == y * y - x * x;
  }

  /** Under the Euclidean metric the nearest centroid has the least squared distance. */
  lemma NearestIsClosest(cents: seq<Vector>, dist: Distance, v: Vector, c: nat)
    requires cents != [] && Shaped(cents, |v|) && c < |cents| && Euclidean(dist)
    ensures SqDist(v, cents[Nearest(cents, dist, v)]) <= SqDist(v, cents[c])
  {
    var b := Nearest(cents, dist, v);
    NearestIsMinimal(cents, dist, v);
    SquareOrder(dist(v, cents[b]), dist(v, cents[c]));
  }

  /** Assigning every point to its nearest centroid costs no more than any other assignment. */
  lemma {:induction false} NearestIsCheapest(points: seq<Vector>, cents: seq<Vector>, a: seq<nat>, dist: Distance,
                                             dim: nat)
    requires cents != [] && |points| == |a| && Shaped(points, dim) && Shaped(cents, dim)
    requires forall i | 0 <= i < |a| :: a[i] < |cents|
    requires Euclidean(dist)
    ensures Inertia(points, cents, dist, dim) <= Cost(points, cents, a, dim)
  {
    if a != [] {
      var n := |a| - 1;
      NearestIsCheapest(points[..n], cents, a[..n], dist, dim);
      NearestIsClosest(cents, dist, points[n], a[n]);
      assert Assign(points, cents, dist)[..n] == Assign(points[..n], cents, dist);
    }
  }

  /** One Lloyd iteration never increases the within-cluster sum of squares. */
  lemma LloydDescends(points: seq<Vector>, cents: seq<Vector>, next: seq<Vector>, dist: Distance, dim: nat)
    requires cents != [] && Shaped(points, dim) && Shaped(cents, dim) && Shaped(next, dim)
    requires LloydStep(points, cents, next, dist, dim) && Euclidean(dist)
    ensures Inertia(points, next, dist, dim) <= Inertia(points, cents, dist, dim)
  {
    var a := Assign(points, cents, dist);
    forall c | 0 <= c < |cents|
      ensures ClusterCost(points, a, c, next[c], dim) <= ClusterCost(points, a, c, cents[c], dim)
    {
      UpdateHelps(points, cents, next, dist, dim, c);
    }
    UpdatesDescend(points, cents, next, a, dim, |cents|);
    assert Mixed(cents, next, |cents|) == next;
    NearestIsCheapest(points, next, a, dist, dim);
  }

  /** The points assigned to cluster `c`. */
  ghost function Members(a: seq<nat>, c: nat): set<nat> {
    set i: nat | i < |a| && a[i] == c
  }

  lemma {:induction false} CountIsMembers(a: seq<nat>, c: nat)
    ensures Count(a, c) == |Members(a, c)|
  {
    if a == [] {
      assert Members(a, c) == {};
    } else {
      var n: nat := |a| - 1;
      CountIsMembers(a[..n], c);
      assert Members(a, c) == Members(a[..n], c) + if a[n] == c then {n} else {};
    }
  }

  /** After a step no other point serves a cluster that has members better than its new centroid. */
  lemma MeanIsBest(points: seq<Vector>, cents: seq<Vector>, next: seq<Vector>, dist: Distance, dim: nat, c: nat,
                   y: Vector)
    requires cents != [] && Shaped(points, dim) && Shaped(next, dim) && |y| == dim
    requires LloydStep(points, cents, next, dist, dim) && c < |cents|
    requires Members(Assign(points, cents, dist), c) != {}
    ensures var a := Assign(points, cents, dist);
            ClusterCost(points, a, c, next[c], dim) <= ClusterCost(points, a, c, y, dim)
  {
    var a := Assign(points, cents, dist);
    CountIsMembers(a, c);
    assert Recentred(points, cents, a, next[c], dim, c);
    MeanSaves(points, a, c, y, dim);
    SqDistNonNegative(next[c], y);
    ScaleNonNegative(Count(a, c), SqDist(next[c], y));
  }

  /** A cluster without members takes the old centroid of a cluster with most members. */
  lemma EmptyTakesLargest(points: seq<Vector>, cents: seq<Vector>, next: seq<Vector>, dist: Distance, dim: nat, c: nat)
    requires cents != [] && Shaped(points, dim)
    requires LloydStep(points, cents, next, dist, dim) && c < |cents|
    requires Members(Assign(points, cents, dist), c) == {}
    ensures var a := Assign(points, cents, dist);
            exists b | 0 <= b < |cents| ::
              next[c] == cents[b] && forall d | 0 <= d < |cents| :: |Members(a, d)| <= |Members(a, b)|
  {
    var a := Assign(points, cents, dist);
    CountIsMembers(a, c);
    assert Recentred(points, cents, a, next[c], dim, c);
    var counts := Counts(a, |cents|);
    var b := Largest(counts);
    LargestIsMaximal(counts);
    CountIsMembers(a, b);
    forall d | 0 <= d < |cents| ensures |Members(a, d)| <= |Members(a, b)| {
      CountIsMembers(a, d);
      assert counts[d] <= counts[b];
    }
  }

  // --- The algorithm on slabs ------------------------------------------------------------

  /** `sums` and `counts` hold each cluster's vector sum and size. */
  ghost predicate Tallied(sums: seq<real>, counts: seq<nat>, points: seq<Vector>, a: seq<nat>, k: nat, dim: nat)
    requires |points| == |a| && Shaped(points, dim)
  {
    && |sums| == Offset(k, dim) && |counts| == k
    && forall c | 0 <= c < k :: Rows(sums, dim, k)[c] == Sum(points, a, c, dim) && counts[c] == Count(a, c)
  }

  lemma {:induction false} EmptyTally(k: nat, dim: nat)
    ensures Tallied(Zero(Offset(k, dim)), seq(k, _ => 0), [], [], k, dim)
  {
    forall c | 0 <= c < k
      ensures Rows(Zero(Offset(k, dim)), dim, k)[c] == Sum([], [], c, dim)
    {
      RowBounds(k, dim, c);
    }
  }

  /** Adding one point to its cluster's row extends the tally by that point. */
  lemma TallyStep(sums: seq<real>, counts: seq<nat>, points: seq<Vector>, a: seq<nat>, k: nat, dim: nat)
    requires |points| == |a| > 0 && Shaped(points, dim) && a[|a| - 1] < k
    requires Tallied(sums, counts, points[..|a| - 1], a[..|a| - 1], k, dim)
    ensures var n := |a| - 1;
            var c := a[n];
            && Offset(c + 1, dim) <= |sums|
            && Tallied(Overwrite(sums, dim, c, Add(Row(sums, dim, c), points[n])), counts[c := counts[c] + 1],
                       points, a, k, dim)
  {
    var n := |a| - 1;
    var c := a[n];
    RowBounds(k, dim, c);
    RowsOverwrite(sums, dim, k, c, Add(Row(sums, dim, c), points[n]));
  }

  lemma {:induction false} SumConcat(p: seq<Vector>, q: seq<Vector>, a: seq<nat>, b: seq<nat>, c: nat, dim: nat)
    requires |p| == |a| && |q| == |b| && Shaped(p, dim) && Shaped(q, dim) && Shaped(p + q, dim)
    ensures Sum(p + q, a + b, c, dim) == Add(Sum(p, a, c, dim), Sum(q, b, c, dim))
    ensures Count(a + b, c) == Count(a, c) + Count(b, c)
  {
    if b == [] {
      assert p + q == p && a + b == a;
    } else {
      var n := |b| - 1;
      SumConcat(p, q[..n], a, b[..n], c, dim);
      assert (a + b)[..|a + b| - 1] == a + b[..n];
      assert (p + q)[..|p + q| - 1] == p + q[..n];
    }
  }

  lemma {:induction false} RowsAdd(s: seq<real>, t: seq<real>, dim: nat, k: nat, c: nat)
    requires |s| == |t| == Offset(k, dim) && c < k
    ensures Rows(Add(s, t), dim, k)[c] == Add(Rows(s, dim, k)[c], Rows(t, dim, k)[c])
  {
    RowBounds(k, dim, c);
  }

  /** Adding two tallies componentwise gives the tally of the concatenated points. */
  lemma TallyMerge(s: seq<real>, m: seq<nat>, p: seq<Vector>, a: seq<nat>,
                   t: seq<real>, n: seq<nat>, q: seq<Vector>, b: seq<nat>, k: nat, dim: nat)
    requires |p| == |a| && |q| == |b| && Shaped(p, dim) && Shaped(q, dim) && Shaped(p + q, dim)
    requires Tallied(s, m, p, a, k, dim) && Tallied(t, n, q, b, k, dim)
    ensures Tallied(Add(s, t), AddCounts(m, n), p + q, a + b, k, dim)
  {
    forall c | 0 <= c < k
      ensures Rows(Add(s, t), dim, k)[c] == Sum(p + q, a + b, c, dim)
      ensures AddCounts(m, n)[c] == Count(a + b, c)
    {
      RowsAdd(s, t, dim, k, c);
      SumConcat(p, q, a, b, c, dim);
    }
  }

  function AddCounts(m: seq<nat>, n: seq<nat>): (r: seq<nat>)
    requires |m| == |n|
    ensures |r| == |m| && forall c | 0 <= c < |m| :: r[c] == m[c] + n[c]
  {
    seq(|m|, c requires 0 <= c < |m| => m[c] + n[c])
  }

  /** One fold task over consecutive points. */
  method TallyChunk(points: seq<Vector>, a: seq<nat>, k: nat, dim: nat) returns (sums: seq<real>, counts: seq<nat>)
    requires |points| == |a| && Shaped(points, dim)
    requires forall i | 0 <= i < |a| :: a[i] < k
    ensures Tallied(sums, counts, points, a, k, dim)
  {
    sums, counts := Zero(Offset(k, dim)), seq(k, _ => 0);
    EmptyTally(k, dim);
    for i := 0 to |a|
      invariant Tallied(sums, counts, points[..i], a[..i], k, dim)
    {
      var c := a[i];
      assert points[..i + 1][..i] == points[..i] && a[..i + 1][..i] == a[..i];
      TallyStep(sums, counts, points[..i + 1], a[..i + 1], k, dim);
      sums := Overwrite(sums, dim, c, Add(Row(sums, dim, c), points[i]));
      counts := counts[c := counts[c] + 1];
    }
    assert points[..|a|] == points && a[..|a|] == a;
  }

  /** The parallel fold and reduce, under the scheduler's splits. */
  method Tally(points: seq<Vector>, a: seq<nat>, k: nat, dim: nat, split: Split) returns (sums: seq<real>,
               counts: seq<nat>)
    requires |points| == |a| && Shaped(points, dim)
    requires forall i | 0 <= i < |a| :: a[i] < k
    ensures Tallied(sums, counts, points, a, k, dim)
    decreases split
  {
    match split
    case Leaf =>
      sums, counts := TallyChunk(points, a, k, dim);
    case Branch(at, left, right) =>
      var cut := Min(at, |a|);
      var p, q, b, d := points[..cut], points[cut..], a[..cut], a[cut..];
      assert p + q == points && b + d == a;
      var s, m := Tally(p, b, k, dim, left);
      var t, n := Tally(q, d, k, dim, right);
      TallyMerge(s, m, p, b, t, n, q, d, k, dim);
      sums, counts := Add(s, t), AddCounts(m, n);
  }

  /** Turn sums into means in place, re-seeding empty clusters from the old centroids. */
  method Recentre(centroids: seq<real>, sums: seq<real>, counts: seq<nat>, k: nat, dim: nat) returns (next: seq<real>)
    requires |centroids| == |sums| == Offset(k, dim) && |counts| == k > 0
    ensures |next| == Offset(k, dim)
    ensures forall c | 0 <= c < k ::
              Rows(next, dim, k)[c] == if counts[c] == 0 then Rows(centroids, dim, k)[Largest(counts)]
                                       else Divide(Rows(sums, dim, k)[c], counts[c] as real)
  {
    next := sums;
    for c := 0 to k
      invariant |next| == |sums|
      invariant forall j | c <= j < k :: Rows(next, dim, k)[j] == Rows(sums, dim, k)[j]
      invariant forall j | 0 <= j < c ::
                  Rows(next, dim, k)[j] == if counts[j] == 0 then Rows(centroids, dim, k)[Largest(counts)]
                                           else Divide(Rows(sums, dim, k)[j], counts[j] as real)
    {
      RowBounds(k, dim, c);
      var row;
      if counts[c] == 0 {
        var src := Largest(counts);
        RowBounds(k, dim, src);
        row := Row(centroids, dim, src);
      } else {
        row := Divide(Row(next, dim, c), counts[c] as real);
      }
      RowsOverwrite(next, dim, k, c, row);
      next := Overwrite(next, dim, c, row);
    }
  }

  /** `next` is one Lloyd iteration after `prev`, on slabs of `k` rows. */
  ghost predicate Follows(prev: seq<real>, next: seq<real>, data: seq<real>, n: nat, dim: nat, k: nat, dist: Distance)
    requires |data| == Offset(n, dim) && k > 0
  {
    && |prev| == |next| == Offset(k, dim)
    && LloydStep(Rows(data, dim, n), Rows(prev, dim, k), Rows(next, dim, k), dist, dim)
  }

  /** One assignment, tally and update round is one Lloyd step on the rows. */
  method Iterate(data: seq<real>, n: nat, dim: nat, k: nat, centroids: seq<real>, dist: Distance, split: Split)
    returns (next: seq<real>)
    requires |data| == Offset(n, dim) && |centroids| == Offset(k, dim) && k > 0
    ensures Follows(centroids, next, data, n, dim, k, dist)
  {
    var points, cents := Rows(data, dim, n), Rows(centroids, dim, k);
    var a := Assign(points, cents, dist);
    var sums, counts := Tally(points, a, k, dim, split);
    assert counts == Counts(a, k);
    next := Recentre(centroids, sums, counts, k, dim);
    forall c | 0 <= c < k ensures Recentred(points, cents, a, Rows(next, dim, k)[c], dim, c) { }
  }

  lemma MulMonotone(a: nat, b: nat, c: nat)
    requires a <= b
    ensures a * c <= b * c
  {
    assert b * c == a * c + (b - a) * c;
  }

  lemma QuotientBelow(x: nat, n: nat, k: nat)
    requires k > 0 && x < n * k
    ensures x / k < n
  {
    var q := x / k;
    assert q * k <= x;
    if n <= q {
      MulMonotone(n, q, k);
    }
  }

  lemma StrideInBounds(i: nat, n: nat, k: nat)
    requires i < k && n > 0
    ensures (i * n) / k < n
  {
    MulMonotone(i + 1, k, n);
    QuotientBelow(i * n, n, k);
  }

  /** Index of the `i`-th of `k` evenly spaced rows. */
  function Stride(i: nat, n: nat, k: nat): (src: nat)
    requires i < k && n > 0
    ensures src < n
  {
    StrideInBounds(i, n, k);
    (i * n) / k
  }

  /** The first centroids are the stride-sampled rows. */
  ghost predicate IsSeed(centroids: seq<real>, data: seq<real>, n: nat, dim: nat, k: nat)
    requires |data| == Offset(n, dim) && n > 0
  {
    && |centroids| == Offset(k, dim)
    && forall i | 0 <= i < k :: Rows(centroids, dim, k)[i] == Rows(data, dim, n)[Stride(i, n, k)]
  }

  /** `src` is where the `i`-th of `k` equal shares of `n` rows begins. */
  ghost predicate Begins(src: nat, i: nat, n: nat, k: nat) {
    src < n && src * k <= i * n < (src + 1) * k
  }

  lemma SharesBeginApart(a: nat, b: nat, i: nat, j: nat, n: nat, k: nat)
    requires Begins(a, i, n, k) && Begins(b, j, n, k) && i < j && k <= n
    ensures a < b
  {
    MulMonotone(i + 1, j, n);
    assert (i + 1) * n == i * n + n && (a + 1) * k == a * k + k && (b + 1) * k == b * k + k;
    if b <= a { MulMonotone(b, a, k); }
  }

  lemma QuotientBegins(i: nat, n: nat, k: nat)
    requires i < k && n > 0
    ensures Begins((i * n) / k, i, n, k)
  {
    StrideInBounds(i, n, k);
    var x, q := i * n, (i * n) / k;
    assert x == q * k + x % k;
    assert (q + 1) * k == q * k + k;
  }

  /** Seed `i` is the row where the `i`-th equal share begins. */
  ghost predicate SeededAt(cents: seq<Vector>, points: seq<Vector>, i: nat, src: nat) {
    i < |cents| && src < |points| && Begins(src, i, |points|, |cents|) && cents[i] == points[src]
  }

  /** The seeds are the rows where equal shares of the data begin, all different if there are enough rows. */
  ghost predicate SpreadSeeds(cents: seq<Vector>, points: seq<Vector>, srcs: seq<nat>) {
    && |srcs| == |cents| && (forall i | 0 <= i < |cents| :: SeededAt(cents, points, i, srcs[i]))
    && (|cents| <= |points| ==> forall i, j | 0 <= i < j < |srcs| :: srcs[i] < srcs[j])
  }

  lemma SeedsAreSpread(centroids: seq<real>, data: seq<real>, n: nat, dim: nat, k: nat)
    requires |data| == Offset(n, dim) && n > 0 && IsSeed(centroids, data, n, dim, k)
    ensures exists srcs :: SpreadSeeds(Rows(centroids, dim, k), Rows(data, dim, n), srcs)
  {
    var srcs := seq(k, i requires 0 <= i < k => Stride(i, n, k));
    var cents, points := Rows(centroids, dim, k), Rows(data, dim, n);
    forall i | 0 <= i < k ensures SeededAt(cents, points, i, srcs[i]) {
      QuotientBegins(i, n, k);
      assert cents[i] == points[Stride(i, n, k)];
    }
    if k <= n {
      forall i, j | 0 <= i < j < k ensures srcs[i] < srcs[j] {
        QuotientBegins(i, n, k);
        QuotientBegins(j, n, k);
        SharesBeginApart(srcs[i], srcs[j], i, j, n, k);
      }
    }
    assert SpreadSeeds(cents, points, srcs);
  }

  /** Stride-sample `k` of the `n` rows as the first centroids. */
  method SeedCentroids(data: seq<real>, n: nat, dim: nat, k: nat) returns (centroids: seq<real>)
    requires |data| == Offset(n, dim) && n > 0
    ensures IsSeed(centroids, data, n, dim, k)
  {
    centroids := Zero(Offset(k, dim));
    for i := 0 to k
      invariant |centroids| == Offset(k, dim)
      invariant forall j | 0 <= j < i :: Rows(centroids, dim, k)[j] == Rows(data, dim, n)[Stride(j, n, k)]
    {
      var src := Stride(i, n, k);
      RowBounds(n, dim, src);
      RowBounds(k, dim, i);
      RowsOverwrite(centroids, dim, k, i, Row(data, dim, src));
      centroids := Overwrite(centroids, dim, i, Row(data, dim, src));
    }
  }

  predicate Converged(prev: seq<real>, next: seq<real>) {
    |prev| == |next| && forall i | 0 <= i < |prev| :: -KMEANS_TOL < prev[i] - next[i] < KMEANS_TOL
  }

  /** The centroid slabs of a run: the seeds, then one slab per iteration. */
  datatype Run = Seeds(now: seq<real>) | Then(before: Run, now: seq<real>)

  ghost function Iterations(run: Run): nat {
    match run
    case Seeds(_) => 0
    case Then(before, _) => Iterations(before) + 1
  }

  /** The run stops at its last slab because that slab converged. */
  ghost predicate HasConverged(run: Run) {
    run.Then? && Converged(run.before.now, run.now)
  }

  /** Every slab follows from the one before by a Lloyd step, and no step was taken after convergence. */
  ghost predicate IsRun(run: Run, data: seq<real>, n: nat, dim: nat, k: nat, dist: Distance)
    requires |data| == Offset(n, dim) && n > 0 && k > 0
  {
    match run
    case Seeds(now) => IsSeed(now, data, n, dim, k)
    case Then(before, now) =>
      IsRun(before, data, n, dim, k, dist) && Follows(before.now, now, data, n, dim, k, dist) && !HasConverged(before)
  }

  ghost function InertiaOf(centroids: seq<real>, data: seq<real>, n: nat, dim: nat, k: nat, dist: Distance): real
    requires |data| == Offset(n, dim) && |centroids| == Offset(k, dim) && k > 0
  {
    Inertia(Rows(data, dim, n), Rows(centroids, dim, k), dist, dim)
  }

  ghost function FirstSlab(run: Run): seq<real> {
    match run
    case Seeds(now) => now
    case Then(before, _) => FirstSlab(before)
  }

  /** From the seeds to the last centroids of a run the objective has not increased. */
  lemma {:induction false} RunDescends(run: Run, data: seq<real>, n: nat, dim: nat, k: nat, dist: Distance)
    requires |data| == Offset(n, dim) && n > 0 && k > 0
    requires IsRun(run, data, n, dim, k, dist) && Euclidean(dist)
    ensures IsSeed(FirstSlab(run), data, n, dim, k) && |run.now| == Offset(k, dim)
    ensures InertiaOf(run.now, data, n, dim, k, dist) <= InertiaOf(FirstSlab(run), data, n, dim, k, dist)
  {
    if run.Then? {
      RunDescends(run.before, data, n, dim, k, dist);
      FollowsDescends(run.before.now, run.now, data, n, dim, k, dist);
    }
  }

  lemma FollowsDescends(prev: seq<real>, next: seq<real>, data: seq<real>, n: nat, dim: nat, k: nat, dist: Distance)
    requires |data| == Offset(n, dim) && k > 0
    requires Follows(prev, next, data, n, dim, k, dist) && Euclidean(dist)
    ensures InertiaOf(next, data, n, dim, k, dist) <= InertiaOf(prev, data, n, dim, k, dist)
  {
    LloydDescends(Rows(data, dim, n), Rows(prev, dim, k), Rows(next, dim, k), dist, dim);
  }

  /** A run that stopped because it converged or reached the iteration cap. */
  ghost predicate CompleteRun(run: Run, data: seq<real>, n: nat, dim: nat, k: nat, dist: Distance)
    requires |data| == Offset(n, dim) && n > 0 && k > 0
  {
    && IsRun(run, data, n, dim, k, dist)
    && 0 < Iterations(run) <= MAX_KMEANS_ITER
    && (Iterations(run) == MAX_KMEANS_ITER || HasConverged(run))
  }

  /** A component moves by at least the tolerance. */
  ghost predicate Moves(prev: seq<real>, next: seq<real>) {
    exists i | 0 <= i < |prev| == |next| :: prev[i] - next[i] >= 0.0001 || next[i] - prev[i] >= 0.0001
  }

  /** The loop stopped after 25 iterations or because nothing moved, and went on only while something did. */
  lemma WhyItStopped(run: Run, data: seq<real>, n: nat, dim: nat, k: nat, dist: Distance)
    requires |data| == Offset(n, dim) && n > 0 && k > 0 && CompleteRun(run, data, n, dim, k, dist)
    ensures run.Then? && (Iterations(run) == 25 || (Iterations(run) < 25 && !Moves(run.before.now, run.now)))
    ensures run.before.Then? ==> Moves(run.before.before.now, run.before.now)
  {
    hide LloydStep;
    MovesUnlessConverged(run.before.now, run.now);
    LastStep(run, data, n, dim, k, dist);
    if run.before.Then? {
      LastStep(run.before, data, n, dim, k, dist);
      MovesUnlessConverged(run.before.before.now, run.before.now);
    }
  }

  lemma LastStep(run: Run, data: seq<real>, n: nat, dim: nat, k: nat, dist: Distance)
    requires |data| == Offset(n, dim) && n > 0 && k > 0 && run.Then? && IsRun(run, data, n, dim, k, dist)
    ensures IsRun(run.before, data, n, dim, k, dist) && |run.before.now| == |run.now| && !HasConverged(run.before)
  {
    hide LloydStep;
  }

  lemma MovesUnlessConverged(prev: seq<real>, next: seq<real>)
    requires |prev| == |next|
    ensures Moves(prev, next) <==> !Converged(prev, next)
  {
  }

  ghost predicate FromKMeans(centroids: seq<real>, data: seq<real>, n: nat, dim: nat, k: nat, dist: Distance)
    requires |data| == Offset(n, dim) && n > 0 && k > 0
  {
    exists run :: CompleteRun(run, data, n, dim, k, dist) && run.now == centroids
  }

  /** Clustering ends no worse than the evenly spread seeds it started from. */
  lemma ClusteringImproves(centroids: seq<real>, data: seq<real>, n: nat, dim: nat, k: nat, dist: Distance)
    requires |data| == Offset(n, dim) && n > 0 && k > 0
    requires FromKMeans(centroids, data, n, dim, k, dist) && Euclidean(dist)
    ensures |centroids| == Offset(k, dim)
    ensures exists seeds, srcs |
                |seeds| == Offset(k, dim) && SpreadSeeds(Rows(seeds, dim, k), Rows(data, dim, n), srcs) ::
              InertiaOf(centroids, data, n, dim, k, dist) <= InertiaOf(seeds, data, n, dim, k, dist)
  {
    var run :| CompleteRun(run, data, n, dim, k, dist) && run.now == centroids;
    RunDescends(run, data, n, dim, k, dist);
    var seeds := FirstSlab(run);
    SeedsAreSpread(seeds, data, n, dim, k);
    var srcs :| SpreadSeeds(Rows(seeds, dim, k), Rows(data, dim, n), srcs);
    assert |seeds| == Offset(k, dim) && SpreadSeeds(Rows(seeds, dim, k), Rows(data, dim, n), srcs);
  }

  /** Lloyd's loop; `splits` are the scheduler's choices, one tree per iteration. */
  method Lloyd(data: seq<real>, n: nat, dim: nat, k: nat, dist: Distance, splits: nat -> Split)
    returns (centroids: seq<real>, ghost run: Run)
    requires |data| == Offset(n, dim) && n > 0 && k > 0
    ensures CompleteRun(run, data, n, dim, k, dist) && centroids == run.now && |centroids| == Offset(k, dim)
    ensures |FirstSlab(run)| == Offset(k, dim)
    ensures exists srcs :: SpreadSeeds(Rows(FirstSlab(run), dim, k), Rows(data, dim, n), srcs)
  {
    hide SpreadSeeds, Follows, Converged;
    centroids := SeedCentroids(data, n, dim, k);
    SeedsAreSpread(centroids, data, n, dim, k);
    ghost var seeds := centroids;
    run := Seeds(centroids);
    for iter := 0 to MAX_KMEANS_ITER
      invariant IsRun(run, data, n, dim, k, dist) && Iterations(run) == iter && !HasConverged(run)
      invariant centroids == run.now && |centroids| == Offset(k, dim) && FirstSlab(run) == seeds
    {
      var next := Iterate(data, n, dim, k, centroids, dist, splits(iter));
      RunStep(run, next, data, n, dim, k, dist);
      run := Then(run, next);
      var converged := Converged(centroids, next);
      centroids := next;
      if converged {
        return;
      }
    }
  }

  lemma RunStep(run: Run, next: seq<real>, data: seq<real>, n: nat, dim: nat, k: nat, dist: Distance)
    requires |data| == Offset(n, dim) && n > 0 && k > 0
    requires IsRun(run, data, n, dim, k, dist) && !HasConverged(run)
    requires Follows(run.now, next, data, n, dim, k, dist)
    ensures IsRun(Then(run, next), data, n, dim, k, dist)
    ensures Iterations(Then(run, next)) == Iterations(run) + 1
    ensures HasConverged(Then(run, next)) <==> Converged(run.now, next)
  {
  }

  method Cluster(data: seq<real>, n: nat, dim: nat, k: nat, dist: Distance,
                 splits: nat -> Split) returns (centroids: seq<real>)
    requires |data| == Offset(n, dim) && n > 0 && k > 0
    ensures |centroids| == Offset(k, dim)
    ensures FromKMeans(centroids, data, n, dim, k, dist)
  {
    ghost var run;
    centroids, run := Lloyd(data, n, dim, k, dist, splits);
  }
}
