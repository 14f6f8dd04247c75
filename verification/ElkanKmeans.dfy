/**
 Elkan's k-means (src/ivfkmeans.c:194-250 and 255-500) over ideal arithmetic: bounds on distances
 replace most distance computations, yet every sample is assigned a nearest centre in every iteration.

 The bounds of one sample are a row of the source's flat lowerBound array.
 */
module ElkanKmeans {
  import opened Vectors

  type Metric = (Vector, Vector) -> real

  ghost predicate IsMetric(d: Metric, dim: nat) {
    && (forall x, y | |x| == dim && |y| == dim :: d(x, y) == d(y, x) && d(x, y) >= 0.0)
    && (forall x, y, z {:trigger d(x, y), d(y, z)} | |x| == dim && |y| == dim && |z| == dim ::
        d(x, z) <= d(x, y) + d(y, z))
  }

  ghost predicate AllDim(vs: seq<Vector>, dim: nat) {
    forall k | 0 <= k < |vs| :: |vs[k]| == dim
  }

  /** The largest float, which the source uses as an infinite distance. */
  const FLT_MAX: real := 340282346638528859811704183484516925440.0

  // ---------------------------------------------------------------------------------------
  // Steps 2 and 3 for one sample
  // ---------------------------------------------------------------------------------------

  /** lower[k] is at most the distance to centre k, and upper at least the distance to the assigned centre. */
  ghost predicate BoundsSound(d: Metric, x: Vector, centers: seq<Vector>, c: nat, upper: real, lower: seq<real>) {
    && c < |centers| == |lower| && d(x, centers[c]) <= upper
    && forall k | 0 <= k < |centers| :: lower[k] <= d(x, centers[k])
  }

  ghost predicate Nearest(d: Metric, x: Vector, centers: seq<Vector>, c: nat) {
    c < |centers| && forall k | 0 <= k < |centers| :: d(x, centers[c]) <= d(x, centers[k])
  }

  /** half holds the halved distances between different centres. */
  ghost predicate Halved(d: Metric, centers: seq<Vector>, half: seq<seq<real>>) {
    |half| == |centers| && forall j | 0 <= j < |centers| :: HalvedRow(d, centers, j, half[j])
  }

  ghost predicate HalvedRow(d: Metric, centers: seq<Vector>, j: nat, row: seq<real>)
    requires j < |centers|
  {
    |row| == |centers| && forall k | 0 <= k < |centers| && k != j :: row[k] == 0.5 * d(centers[j], centers[k])
  }

  /** s[j] is half the distance from centre j to the nearest other one. */
  ghost predicate Separation(half: seq<seq<real>>, s: seq<real>) {
    |s| == |half| && forall j | 0 <= j < |half| :: IsSeparation(half[j], j, s[j])
  }

  ghost predicate IsSeparation(row: seq<real>, j: nat, min: real) {
    && (forall k | 0 <= k < |row| && k != j :: min <= row[k])
    && (min == FLT_MAX || exists k :: 0 <= k < |row| && k != j && row[k] == min)
  }

  lemma SeparationRule(d: Metric, dim: nat, x: Vector, centers: seq<Vector>, half: seq<seq<real>>, s: seq<real>, c: nat)
    requires IsMetric(d, dim) && |x| == dim && AllDim(centers, dim) && Halved(d, centers, half) && Separation(half, s)
    requires c < |centers| && d(x, centers[c]) <= s[c]
    ensures Nearest(d, x, centers, c)
  {
    assert HalvedRow(d, centers, c, half[c]) && IsSeparation(half[c], c, s[c]);
    forall k | 0 <= k < |centers| ensures d(x, centers[c]) <= d(x, centers[k]) {
      if k != c { HalfDistanceRules(d, dim, x, centers[c], centers[k]); }
    }
  }

  /** A centre at least twice as far from c as x is cannot be nearer to x than c. */
  lemma HalfDistanceRules(d: Metric, dim: nat, x: Vector, c: Vector, k: Vector)
    requires IsMetric(d, dim) && |x| == |c| == |k| == dim && d(x, c) <= 0.5 * d(c, k)
    ensures d(x, c) <= d(x, k)
  {
    assert d(c, k) <= d(c, x) + d(x, k);
    assert d(c, x) == d(x, c);
  }

  /** Reassigns one sample; distances are computed only where the bounds leave a doubt. */
  method AssignSample(d: Metric, ghost dim: nat, x: Vector, centers: seq<Vector>, half: seq<seq<real>>, s: seq<real>,
                      rjreset: bool, c0: nat, upper0: real, lower0: seq<real>)
    returns (c: nat, upper: real, lower: seq<real>, changes: nat)
    requires IsMetric(d, dim) && |x| == dim && AllDim(centers, dim)
    requires Halved(d, centers, half) && Separation(half, s)
    requires BoundsSound(d, x, centers, c0, upper0, lower0) && (!rjreset ==> upper0 == d(x, centers[c0]))
    ensures BoundsSound(d, x, centers, c, upper, lower)
    ensures Nearest(d, x, centers, c)
    ensures changes == 0 ==> c == c0
    ensures changes > 0 ==> d(x, centers[c]) < d(x, centers[c0])
  {
    c, upper, lower, changes := c0, upper0, lower0, 0;
    if upper <= s[c] {
      SeparationRule(d, dim, x, centers, half, s, c);
      return;
    }
    var rj := rjreset;
    for k := 0 to |centers|
      invariant BoundsSound(d, x, centers, c, upper, lower)
      invariant !rj ==> upper == d(x, centers[c])
      invariant rj ==> c == c0
      invariant forall i | 0 <= i < k :: d(x, centers[c]) <= d(x, centers[i])
      invariant if changes == 0 then c == c0 else d(x, centers[c]) < d(x, centers[c0])
    {
      if k == c { continue; }
      if upper <= lower[k] { continue; }
      assert HalvedRow(d, centers, c, half[c]);
      if upper <= half[c][k] {
        HalfDistanceRules(d, dim, x, centers[c], centers[k]);
        continue;
      }
      var dxcx;
      if rj {
        dxcx := d(x, centers[c]);
        lower, upper, rj := lower[c := dxcx], dxcx, false;
      } else {
        dxcx := upper;
      }
      if dxcx > lower[k] || dxcx > half[c][k] {
        var dxc := d(x, centers[k]);
        lower := lower[k := dxc];
        if dxc < dxcx {
          c, upper, changes := k, dxc, changes + 1;
        }
      }
    }
  }

  // ---------------------------------------------------------------------------------------
  // Step 1
  // ---------------------------------------------------------------------------------------

  method HalveDistances(d: Metric, ghost dim: nat, centers: seq<Vector>) returns (half: seq<seq<real>>)
    requires IsMetric(d, dim) && AllDim(centers, dim)
    ensures Halved(d, centers, half)
  {
    var n := |centers|;
    var cells := new real[n, n]((_, _) => 0.0);
    for j := 0 to n
      invariant forall a, b | 0 <= a < n && 0 <= b < n && a != b && (a < j || b < j) ::
                cells[a, b] == 0.5 * d(centers[a], centers[b])
    {
      for k := j + 1 to n
        invariant forall a, b | 0 <= a < n && 0 <= b < n && a != b &&
                  (a < j || b < j || (a == j && b < k) || (b == j && a < k)) ::
          cells[a, b] == 0.5 * d(centers[a], centers[b])
      {
        var distance := 0.5 * d(centers[j], centers[k]);
        assert d(centers[j], centers[k]) == d(centers[k], centers[j]);
        cells[j, k] := distance;
        cells[k, j] := distance;
      }
    }
    half := seq(n, j requires 0 <= j < n reads cells => seq(n, k requires 0 <= k < n reads cells => cells[j, k]));
  }

  method Separate(half: seq<seq<real>>) returns (s: seq<real>)
    ensures Separation(half, s)
  {
    s := [];
    for j := 0 to |half|
      invariant |s| == j && forall i | 0 <= i < j :: IsSeparation(half[i], i, s[i])
    {
      var minDistance := FLT_MAX;
      for k := 0 to |half[j]|
        invariant forall i | 0 <= i < k && i != j :: minDistance <= half[j][i]
        invariant minDistance == FLT_MAX || exists i :: 0 <= i < k && i != j && half[j][i] == minDistance
      {
        if k == j { continue; }
        if half[j][k] < minDistance { minDistance := half[j][k]; }
      }
      s := s + [minDistance];
    }
  }

  // ---------------------------------------------------------------------------------------
  // Steps 2 and 3 for all samples
  // ---------------------------------------------------------------------------------------

  ghost predicate AllSound(d: Metric, samples: seq<Vector>, centers: seq<Vector>, closest: seq<nat>, upper: seq<real>,
                           lower: seq<seq<real>>) {
    && |closest| == |upper| == |lower| == |samples|
    && forall j | 0 <= j < |samples| :: BoundsSound(d, samples[j], centers, closest[j], upper[j], lower[j])
  }

  ghost predicate AllNearest(d: Metric, samples: seq<Vector>, centers: seq<Vector>, closest: seq<nat>) {
    |closest| == |samples| && forall j | 0 <= j < |samples| :: Nearest(d, samples[j], centers, closest[j])
  }

  ghost predicate Exact(d: Metric, samples: seq<Vector>, centers: seq<Vector>, closest: seq<nat>, upper: seq<real>) {
    && |closest| == |upper| == |samples|
    && forall j | 0 <= j < |samples| :: closest[j] < |centers| && upper[j] == d(samples[j], centers[closest[j]])
  }

  /** Whatever was skipped, every sample ends up assigned to a nearest centre, and the bounds stay sound. */
  method AssignSamples(d: Metric, ghost dim: nat, samples: seq<Vector>, centers: seq<Vector>, rjreset: bool,
                       closest: array<nat>, upper: array<real>, lower: array<seq<real>>)
    returns (changes: nat)
    requires IsMetric(d, dim) && AllDim(samples, dim) && AllDim(centers, dim)
    requires AllSound(d, samples, centers, closest[..], upper[..], lower[..])
    requires !rjreset ==> Exact(d, samples, centers, closest[..], upper[..])
    modifies closest, upper, lower
    ensures AllSound(d, samples, centers, closest[..], upper[..], lower[..])
    ensures AllNearest(d, samples, centers, closest[..])
    ensures changes == 0 <==> closest[..] == old(closest[..])
    ensures OnlyNearer(d, samples, centers, old(closest[..]), closest[..])
  {
    var half := HalveDistances(d, dim, centers);
    var s := Separate(half);
    changes := 0;
    ghost var before := closest[..];
    AssigningStarts(d, samples, centers, rjreset, before, upper[..], lower[..]);
    for j := 0 to |samples|
      invariant Assigning(d, samples, centers, rjreset, before, changes, j, closest[..], upper[..], lower[..])
      invariant forall i | j <= i < |samples| :: closest[i] == before[i]
    {
      ghost var closest0, upper0, lower0 := closest[..], upper[..], lower[..];
      StillToAssign(d, samples, centers, rjreset, before, changes, j, closest0, upper0, lower0);
      var c, u, row, n := AssignSample(d, dim, samples[j], centers, half, s, rjreset, closest[j], upper[j], lower[j]);
      AssignedOne(d, samples, centers, rjreset, before, changes, j, closest0, upper0, lower0, c, u, row, n);
      closest[j], upper[j], lower[j] := c, u, row;
      assert closest[..] == closest0[j := c] && upper[..] == upper0[j := u] && lower[..] == lower0[j := row];
      changes := changes + n;
    }
    AssigningEnds(d, samples, centers, rjreset, before, changes, closest[..], upper[..], lower[..]);
  }

  /** The samples before j are assigned; those from j on are as they were before. */
  ghost predicate Assigning(d: Metric, samples: seq<Vector>, centers: seq<Vector>, rjreset: bool, before: seq<nat>,
                            changes: nat, j: nat, closest: seq<nat>, upper: seq<real>, lower: seq<seq<real>>) {
    && AllSound(d, samples, centers, closest, upper, lower) && |before| == |samples| && j <= |samples|
    && (!rjreset ==> Exact(d, samples[j..], centers, closest[j..], upper[j..]))
    && AllNearest(d, samples[..j], centers, closest[..j])
    && (changes == 0 <==> closest[..j] == before[..j])
    && forall i | 0 <= i < j :: MovesNearer(d, samples[i], centers, before[i], closest[i])
  }

  /** The sample stays or goes to a strictly nearer centre. */
  ghost predicate MovesNearer(d: Metric, x: Vector, centers: seq<Vector>, c0: nat, c: nat) {
    c == c0 || (c0 < |centers| && c < |centers| && d(x, centers[c]) < d(x, centers[c0]))
  }

  ghost predicate OnlyNearer(d: Metric, samples: seq<Vector>, centers: seq<Vector>, before: seq<nat>, after: seq<nat>) {
    && |before| == |after| == |samples|
    && forall j | 0 <= j < |samples| :: MovesNearer(d, samples[j], centers, before[j], after[j])
  }

  lemma AssigningStarts(d: Metric, samples: seq<Vector>, centers: seq<Vector>, rjreset: bool, before: seq<nat>,
                        upper: seq<real>, lower: seq<seq<real>>)
    requires AllSound(d, samples, centers, before, upper, lower)
    requires !rjreset ==> Exact(d, samples, centers, before, upper)
    ensures Assigning(d, samples, centers, rjreset, before, 0, 0, before, upper, lower)
  {
    assert samples[0..] == samples && before[0..] == before && upper[0..] == upper;
  }

  lemma AssigningEnds(d: Metric, samples: seq<Vector>, centers: seq<Vector>, rjreset: bool, before: seq<nat>,
                      changes: nat, closest: seq<nat>, upper: seq<real>, lower: seq<seq<real>>)
    requires Assigning(d, samples, centers, rjreset, before, changes, |samples|, closest, upper, lower)
    ensures AllNearest(d, samples, centers, closest) && (changes == 0 <==> closest == before)
    ensures OnlyNearer(d, samples, centers, before, closest)
  {
    assert samples[..|samples|] == samples && before[..|samples|] == before && closest[..|samples|] == closest;
  }

  lemma StillToAssign(d: Metric, samples: seq<Vector>, centers: seq<Vector>, rjreset: bool, before: seq<nat>,
                      changes: nat, j: nat, closest: seq<nat>, upper: seq<real>, lower: seq<seq<real>>)
    requires Assigning(d, samples, centers, rjreset, before, changes, j, closest, upper, lower) && j < |samples|
    ensures BoundsSound(d, samples[j], centers, closest[j], upper[j], lower[j])
    ensures !rjreset ==> upper[j] == d(samples[j], centers[closest[j]])
  {
    if !rjreset {
      assert upper[j] == upper[j..][0] && samples[j] == samples[j..][0] && closest[j] == closest[j..][0];
    }
  }

  lemma AssignedOne(d: Metric, samples: seq<Vector>, centers: seq<Vector>, rjreset: bool, before: seq<nat>,
                    changes: nat, j: nat, closest: seq<nat>, upper: seq<real>, lower: seq<seq<real>>, c: nat, u: real,
                    row: seq<real>, n: nat)
    requires Assigning(d, samples, centers, rjreset, before, changes, j, closest, upper, lower) && j < |samples|
    requires BoundsSound(d, samples[j], centers, c, u, row) && Nearest(d, samples[j], centers, c)
    requires (n == 0 <==> c == before[j]) && MovesNearer(d, samples[j], centers, before[j], c)
    ensures Assigning(d, samples, centers, rjreset, before, changes + n, j + 1, closest[j := c], upper[j := u],
                      lower[j := row])
  {
    SetKeepsSound(d, samples, centers, closest, upper, lower, j, c, u, row);
    var closest' := closest[j := c];
    assert closest'[j + 1..] == closest[j..][1..];
    assert upper[j := u][j + 1..] == upper[j..][1..] && samples[j + 1..] == samples[j..][1..];
    assert closest'[..j + 1] == closest[..j] + [c] && samples[..j + 1] == samples[..j] + [samples[j]];
    assert before[..j + 1] == before[..j] + [before[j]];
  }

  lemma SetKeepsSound(d: Metric, samples: seq<Vector>, centers: seq<Vector>, closest: seq<nat>, upper: seq<real>,
                      lower: seq<seq<real>>, j: nat, c: nat, u: real, row: seq<real>)
    requires AllSound(d, samples, centers, closest, upper, lower) && j < |samples|
    requires BoundsSound(d, samples[j], centers, c, u, row)
    ensures AllSound(d, samples, centers, closest[j := c], upper[j := u], lower[j := row])
  {
    forall i | 0 <= i < |samples|
      ensures BoundsSound(d, samples[i], centers, closest[j := c][i], upper[j := u][i], lower[j := row][i])
    {
      assert BoundsSound(d, samples[i], centers, closest[i], upper[i], lower[i]);
    }
  }

  // ---------------------------------------------------------------------------------------
  // Step 4: ComputeNewCenters
  // ---------------------------------------------------------------------------------------

  function Over(a: Vector, n: nat): (r: Vector)
    requires n > 0
    ensures |r| == |a|
  {
    seq(|a|, i requires 0 <= i < |a| => a[i] / n as real)
  }

  function Zero(dim: nat): Vector { seq(dim, _ => 0.0) }

  function ClusterSum(samples: seq<Vector>, closest: seq<nat>, k: nat, dim: nat): (r: Vector)
    requires AllDim(samples, dim) && |closest| == |samples|
    ensures |r| == dim
  {
    if samples == [] then Zero(dim)
    else
      var n := |samples| - 1;
      var sum := ClusterSum(samples[..n], closest[..n], k, dim);
      if closest[n] == k then Add(sum, samples[n]) else sum
  }

  function ClusterSize(closest: seq<nat>, k: nat): nat {
    if closest == [] then 0
    else ClusterSize(closest[..|closest| - 1], k) + if closest[|closest| - 1] == k then 1 else 0
  }

  /** Normalisation of a centre, where the distance needs it. */
  ghost predicate KeepsDim(norm: Vector -> Vector, dim: nat) {
    forall v | |v| == dim :: |norm(v)| == dim
  }

  /** Every centre with samples is the normalised mean of them. */
  ghost predicate AreMeans(samples: seq<Vector>, closest: seq<nat>, centers: seq<Vector>, norm: Vector -> Vector,
                           dim: nat)
    requires AllDim(samples, dim) && |closest| == |samples|
  {
    forall k | 0 <= k < |centers| && ClusterSize(closest, k) > 0 ::
      centers[k] == norm(Over(ClusterSum(samples, closest, k, dim), ClusterSize(closest, k)))
  }

  /** The squares of the distances from v along dimension i, summed over the samples of cluster k. */
  ghost function SquaresFrom(samples: seq<Vector>, closest: seq<nat>, k: nat, dim: nat, i: nat, v: real): real
    requires AllDim(samples, dim) && |closest| == |samples| && i < dim
  {
    if samples == [] then 0.0
    else
      var n := |samples| - 1;
      SquaresFrom(samples[..n], closest[..n], k, dim, i, v) +
      if closest[n] == k then Times(samples[n][i] - v, samples[n][i] - v) else 0.0
  }

  lemma {:induction false} SquaresAreQuadratic(samples: seq<Vector>, closest: seq<nat>, k: nat, dim: nat, i: nat,
                                               v: real)
    requires AllDim(samples, dim) && |closest| == |samples| && i < dim
    ensures SquaresFrom(samples, closest, k, dim, i, v) ==
            SquaresFrom(samples, closest, k, dim, i, 0.0) - 2.0 * Times(v, ClusterSum(samples, closest, k, dim)[i]) +
            Times(ClusterSize(closest, k) as real, Times(v, v))
  {
    if samples != [] {
      var n := |samples| - 1;
      SquaresAreQuadratic(samples[..n], closest[..n], k, dim, i, v);
      OneMoreSquare(ClusterSum(samples[..n], closest[..n], k, dim)[i], ClusterSize(closest[..n], k) as real,
                    samples[n][i], v);
    }
  }

  lemma OneMoreSquare(sum: real, count: real, x: real, v: real)
    ensures Times(x - v, x - v) == Times(x - 0.0, x - 0.0) - 2.0 * Times(v, x) + Times(v, v)
    ensures Times(v, sum + x) == Times(v, sum) + Times(v, x)
    ensures Times(count + 1.0, Times(v, v)) == Times(count, Times(v, v)) + Times(v, v)
  {
  }

  /** The mean of a cluster is the one point from which the sum of squares is least, in every dimension. */
  lemma MeanIsBest(samples: seq<Vector>, closest: seq<nat>, k: nat, dim: nat, i: nat, v: real)
    requires AllDim(samples, dim) && |closest| == |samples| && i < dim && ClusterSize(closest, k) > 0
    ensures var mean := Over(ClusterSum(samples, closest, k, dim), ClusterSize(closest, k))[i];
            v != mean ==>
            SquaresFrom(samples, closest, k, dim, i, mean) < SquaresFrom(samples, closest, k, dim, i, v)
  {
    var sum, count := ClusterSum(samples, closest, k, dim)[i], ClusterSize(closest, k) as real;
    var mean := Over(ClusterSum(samples, closest, k, dim), ClusterSize(closest, k))[i];
    SquaresAreQuadratic(samples, closest, k, dim, i, mean);
    SquaresAreQuadratic(samples, closest, k, dim, i, v);
    if v != mean {
      MeanTimesSize(ClusterSum(samples, closest, k, dim), ClusterSize(closest, k), i);
      Parabola(sum, count, mean, v);
    }
  }

  lemma MeanTimesSize(sum: Vector, size: nat, i: nat)
    requires size > 0 && i < |sum|
    ensures Times(size as real, Over(sum, size)[i]) == sum[i]
  {
  }

  lemma Parabola(sum: real, count: real, mean: real, v: real)
    requires count > 0.0 && Times(count, mean) == sum && v != mean
    ensures Times(count, Times(mean, mean)) - 2.0 * Times(mean, sum) < Times(count, Times(v, v)) - 2.0 * Times(v, sum)
  {
    var e := v - mean;
    var p, q := Times(mean, e), Times(e, e);
    assert Times(v, v) == Times(mean, mean) + 2.0 * p + q;
    assert Times(count, Times(mean, mean) + 2.0 * p + q) ==
           Times(count, Times(mean, mean)) + 2.0 * Times(count, p) + Times(count, q);
    assert Times(v, sum) == Times(mean, sum) + Times(e, sum);
    assert Times(e, sum) == Times(count, p) by { assert e * (count * mean) == count * (mean * e); }
    PositiveProduct(e, e);
    PositiveProduct(count, q);
  }

  lemma PositiveProduct(a: real, b: real)
    requires (a > 0.0 && b > 0.0) || (a < 0.0 && b < 0.0)
    ensures Times(a, b) > 0.0
  {
  }

  method SumClusters(samples: seq<Vector>, closest: seq<nat>, numCenters: nat, dim: nat) returns (sums: seq<Vector>)
    requires AllDim(samples, dim) && |closest| == |samples|
    requires forall j | 0 <= j < |closest| :: closest[j] < numCenters
    ensures |sums| == numCenters && forall k | 0 <= k < numCenters :: sums[k] == ClusterSum(samples, closest, k, dim)
  {
    var agg := new Vector[numCenters](_ => Zero(dim));
    for j := 0 to |samples|
      invariant forall k | 0 <= k < numCenters :: agg[k] == ClusterSum(samples[..j], closest[..j], k, dim)
    {
      var c := closest[j];
      assert samples[..j + 1][..j] == samples[..j] && closest[..j + 1][..j] == closest[..j];
      agg[c] := Add(agg[c], samples[j]);
    }
    assert samples[..|samples|] == samples && closest[..|samples|] == closest;
    sums := agg[..];
  }

  method CountClusters(closest: seq<nat>, numCenters: nat) returns (sizes: seq<nat>)
    requires forall j | 0 <= j < |closest| :: closest[j] < numCenters
    ensures |sizes| == numCenters && forall k | 0 <= k < numCenters :: sizes[k] == ClusterSize(closest, k)
  {
    var counts := new nat[numCenters](_ => 0);
    for j := 0 to |closest|
      invariant forall k | 0 <= k < numCenters :: counts[k] == ClusterSize(closest[..j], k)
    {
      assert closest[..j + 1][..j] == closest[..j];
      counts[closest[j]] := counts[closest[j]] + 1;
    }
    assert closest[..|closest|] == closest;
    sizes := counts[..];
  }

  method ComputeNewCenters(samples: seq<Vector>, closest: seq<nat>, numCenters: nat, norm: Vector -> Vector, dim: nat)
    returns (newCenters: seq<Vector>)
    requires AllDim(samples, dim) && |closest| == |samples| && KeepsDim(norm, dim)
    requires forall j | 0 <= j < |closest| :: closest[j] < numCenters
    ensures |newCenters| == numCenters && AllDim(newCenters, dim)
    ensures AreMeans(samples, closest, newCenters, norm, dim)
  {
    var agg := SumClusters(samples, closest, numCenters, dim);
    var counts := CountClusters(closest, numCenters);
    newCenters := [];
    for k := 0 to numCenters
      invariant |newCenters| == k && AllDim(newCenters, dim)
      invariant AreMeans(samples, closest, newCenters, norm, dim)
    {
      var x: Vector;
      if counts[k] > 0 {
        x := Over(agg[k], counts[k]);
      } else {
        x := RandomVector(dim);
      }
      newCenters := newCenters + [norm(x)];
    }
  }

  method RandomVector(dim: nat) returns (x: Vector)
    ensures |x| == dim
  {
    x := [];
    for i := 0 to dim
      invariant |x| == i
    {
      var r: real := *;
      x := x + [r];
    }
  }

  // ---------------------------------------------------------------------------------------
  // Steps 5 and 6
  // ---------------------------------------------------------------------------------------

  function Clamp(x: real): real { if x < 0.0 then 0.0 else x }

  function MovedRow(row: seq<real>, moved: seq<real>): seq<real>
    requires |row| == |moved|
  {
    seq(|row|, k requires 0 <= k < |row| => Clamp(row[k] - moved[k]))
  }

  /** No lower bound falls by more than its centre has moved, nor below zero. */
  ghost predicate NoWider(d: Metric, centers: seq<Vector>, newCenters: seq<Vector>, row: seq<real>, row': seq<real>) {
    && |row'| == |row| == |centers| == |newCenters|
    && forall k | 0 <= k < |row| :: row'[k] >= 0.0 && row'[k] >= row[k] - d(centers[k], newCenters[k])
  }

  ghost predicate NoneWider(d: Metric, centers: seq<Vector>, newCenters: seq<Vector>, lower: seq<seq<real>>,
                            lower': seq<seq<real>>)
  {
    |lower'| == |lower| && forall j | 0 <= j < |lower| :: NoWider(d, centers, newCenters, lower[j], lower'[j])
  }

  lemma MoveKeepsSound(d: Metric, dim: nat, x: Vector, centers: seq<Vector>, newCenters: seq<Vector>, moved: seq<real>,
                       c: nat, upper: real, row: seq<real>)
    requires IsMetric(d, dim) && |x| == dim && AllDim(centers, dim) && AllDim(newCenters, dim)
    requires |centers| == |newCenters| == |moved| &&
             forall k | 0 <= k < |centers| :: moved[k] == d(centers[k], newCenters[k])
    requires BoundsSound(d, x, centers, c, upper, row)
    ensures BoundsSound(d, x, newCenters, c, upper + moved[c], MovedRow(row, moved))
  {
    forall k | 0 <= k < |centers| ensures Clamp(row[k] - moved[k]) <= d(x, newCenters[k]) {
      assert d(x, centers[k]) <= d(x, newCenters[k]) + d(newCenters[k], centers[k]);
      assert d(centers[k], newCenters[k]) == d(newCenters[k], centers[k]);
    }
    assert d(x, newCenters[c]) <= d(x, centers[c]) + d(centers[c], newCenters[c]);
  }

  /** Widens every bound by as much as its centre moves, which keeps it sound for the new centres. */
  method MoveBounds(d: Metric, ghost dim: nat, samples: seq<Vector>, centers: seq<Vector>, newCenters: seq<Vector>,
                    closest: array<nat>, upper: array<real>, lower: array<seq<real>>)
    requires IsMetric(d, dim) && AllDim(samples, dim) && AllDim(centers, dim) && AllDim(newCenters, dim)
    requires |centers| == |newCenters| && AllSound(d, samples, centers, closest[..], upper[..], lower[..])
    modifies upper, lower
    ensures AllSound(d, samples, newCenters, closest[..], upper[..], lower[..])
    ensures NoneWider(d, centers, newCenters, old(lower[..]), lower[..])
  {
    var moved := [];
    for k := 0 to |centers|
      invariant |moved| == k && forall i | 0 <= i < k :: moved[i] == d(centers[i], newCenters[i])
      invariant AllSound(d, samples, centers, closest[..], upper[..], lower[..])
    {
      moved := moved + [d(centers[k], newCenters[k])];
    }
    ghost var upper0, lower0 := upper[..], lower[..];
    SoundRows(d, samples, centers, closest[..], upper0, lower0);
    for j := 0 to |samples|
      invariant forall i | 0 <= i < j :: lower[i] == MovedRow(lower0[i], moved)
      invariant forall i | j <= i < |samples| :: lower[i] == lower0[i]
      invariant upper[..] == upper0
    {
      lower[j] := MovedRow(lower[j], moved);
    }
    for j := 0 to |samples|
      invariant forall i | 0 <= i < |samples| :: lower[i] == MovedRow(lower0[i], moved)
      invariant forall i | 0 <= i < j :: upper[i] == upper0[i] + moved[closest[i]]
      invariant forall i | j <= i < |samples| :: upper[i] == upper0[i]
    {
      upper[j] := upper[j] + moved[closest[j]];
    }
    AllMoved(d, dim, samples, centers, newCenters, moved, closest[..], upper0, lower0, upper[..], lower[..]);
  }

  lemma SoundRows(d: Metric, samples: seq<Vector>, centers: seq<Vector>, closest: seq<nat>, upper: seq<real>,
                  lower: seq<seq<real>>)
    requires AllSound(d, samples, centers, closest, upper, lower)
    ensures forall j | 0 <= j < |samples| :: closest[j] < |centers| && |lower[j]| == |centers|
  {
    forall j | 0 <= j < |samples| ensures closest[j] < |centers| && |lower[j]| == |centers| {
      assert BoundsSound(d, samples[j], centers, closest[j], upper[j], lower[j]);
    }
  }

  lemma AllMoved(d: Metric, dim: nat, samples: seq<Vector>, centers: seq<Vector>, newCenters: seq<Vector>,
                 moved: seq<real>, closest: seq<nat>, upper: seq<real>, lower: seq<seq<real>>, upper': seq<real>,
                 lower': seq<seq<real>>)
    requires IsMetric(d, dim) && AllDim(samples, dim) && AllDim(centers, dim) && AllDim(newCenters, dim)
    requires |centers| == |newCenters| == |moved| &&
             forall k | 0 <= k < |centers| :: moved[k] == d(centers[k], newCenters[k])
    requires AllSound(d, samples, centers, closest, upper, lower) && |upper'| == |lower'| == |samples|
    requires forall j | 0 <= j < |samples| :: closest[j] < |moved| && |lower[j]| == |moved|
    requires forall j | 0 <= j < |samples| ::
             upper'[j] == upper[j] + moved[closest[j]] && lower'[j] == MovedRow(lower[j], moved)
    requires |lower| == |samples|
    ensures AllSound(d, samples, newCenters, closest, upper', lower') &&
            NoneWider(d, centers, newCenters, lower, lower')
  {
    forall j | 0 <= j < |samples| ensures BoundsSound(d, samples[j], newCenters, closest[j], upper'[j], lower'[j]) {
      assert BoundsSound(d, samples[j], centers, closest[j], upper[j], lower[j]);
      MoveKeepsSound(d, dim, samples[j], centers, newCenters, moved, closest[j], upper[j], lower[j]);
    }
  }

  // ---------------------------------------------------------------------------------------
  // InitCenters and ElkanKmeans
  // ---------------------------------------------------------------------------------------

  /** The initial centres are samples; which ones the weighted random choice picks does not matter here. */
  method InitCenters(d: Metric, samples: seq<Vector>, numCenters: nat, lower: array<seq<real>>)
    returns (centers: seq<Vector>)
    requires samples != [] && numCenters > 0 && lower.Length == |samples|
    modifies lower
    ensures |centers| == numCenters && forall k | 0 <= k < numCenters :: centers[k] in samples
    ensures AllRows(d, samples, centers, lower[..])
  {
    var first: nat := *;
    centers := [samples[first % |samples|]];
    for j := 0 to |samples|
      invariant forall i | 0 <= i < j :: lower[i] == []
    {
      lower[j] := [];
    }
    for i := 0 to numCenters
      invariant |centers| == if i < numCenters then i + 1 else i
      invariant forall k | 0 <= k < |centers| :: centers[k] in samples
      invariant forall j | 0 <= j < |samples| :: RowUpTo(d, samples[j], centers, lower[j], i)
    {
      for j := 0 to |samples|
        invariant forall t | 0 <= t < j :: RowUpTo(d, samples[t], centers, lower[t], i + 1)
        invariant forall t | j <= t < |samples| :: RowUpTo(d, samples[t], centers, lower[t], i)
      {
        lower[j] := lower[j] + [d(samples[j], centers[i])];
      }
      if i + 1 < numCenters {
        var choice: nat := *;
        centers := centers + [samples[choice % |samples|]];
      }
    }
  }

  /** Sample distances are finite floats, so an initial distance never exceeds FLT_MAX. */
  ghost predicate FiniteDistances(d: Metric, samples: seq<Vector>) {
    forall x, y | x in samples && y in samples :: d(x, y) <= FLT_MAX
  }

  method FirstClosest(row: seq<real>) returns (closest: nat, min: real)
    requires row != [] && forall k | 0 <= k < |row| :: row[k] <= FLT_MAX
    ensures InitiallyClosest(closest, min, row)
  {
    min, closest := FLT_MAX, 0;
    for k := 0 to |row|
      invariant forall i | 0 <= i < k :: min <= row[i]
      invariant closest < |row| && (min == row[closest] || (min == FLT_MAX && closest == 0))
    {
      if row[k] < min { min, closest := row[k], k; }
    }
  }

  method AssignInitial(d: Metric, samples: seq<Vector>, centers: seq<Vector>, closest: array<nat>, upper: array<real>,
                       lower: array<seq<real>>)
    requires centers != [] && closest.Length == upper.Length == lower.Length == |samples| && FiniteDistances(d, samples)
    requires (forall k | 0 <= k < |centers| :: centers[k] in samples) && AllRows(d, samples, centers, lower[..])
    modifies closest, upper
    ensures AllSound(d, samples, centers, closest[..], upper[..], lower[..]) &&
            Exact(d, samples, centers, closest[..], upper[..])
    ensures AllNearest(d, samples, centers, closest[..])
  {
    for j := 0 to |samples|
      invariant InitiallyClosestUpTo(closest[..], upper[..], lower[..], j)
    {
      RowIsFinite(d, samples, centers, j, lower[..]);
      var k, min := FirstClosest(lower[j]);
      OneMoreClosest(closest[..], upper[..], lower[..], j, k, min);
      ghost var closest', upper' := closest[..], upper[..];
      closest[j], upper[j] := k, min;
      assert closest[..] == closest'[j := k] && upper[..] == upper'[j := min];
    }
    InitiallySound(d, samples, centers, closest[..], upper[..], lower[..]);
  }

  /** The distances of every sample from every centre. */
  ghost predicate AllRows(d: Metric, samples: seq<Vector>, centers: seq<Vector>, lower: seq<seq<real>>) {
    |lower| == |samples| && forall j | 0 <= j < |samples| :: RowUpTo(d, samples[j], centers, lower[j], |centers|)
  }

  ghost predicate RowUpTo(d: Metric, x: Vector, centers: seq<Vector>, row: seq<real>, n: nat) {
    |row| == n <= |centers| && forall k | 0 <= k < n :: row[k] == d(x, centers[k])
  }

  lemma RowIsFinite(d: Metric, samples: seq<Vector>, centers: seq<Vector>, j: nat, rows: seq<seq<real>>)
    requires FiniteDistances(d, samples) && AllRows(d, samples, centers, rows) && j < |samples|
    requires forall k | 0 <= k < |centers| :: centers[k] in samples
    ensures |rows[j]| == |centers| && forall k | 0 <= k < |rows[j]| :: rows[j][k] <= FLT_MAX
  {
    assert samples[j] in samples && RowUpTo(d, samples[j], centers, rows[j], |centers|);
  }

  ghost predicate InitiallyClosest(c: nat, min: real, row: seq<real>) {
    c < |row| && min == row[c] && forall k | 0 <= k < |row| :: min <= row[k]
  }

  ghost predicate InitiallyClosestUpTo(closest: seq<nat>, upper: seq<real>, lower: seq<seq<real>>, n: nat) {
    && |closest| == |upper| == |lower| && n <= |closest|
    && forall j | 0 <= j < n :: InitiallyClosest(closest[j], upper[j], lower[j])
  }

  lemma OneMoreClosest(closest: seq<nat>, upper: seq<real>, lower: seq<seq<real>>, n: nat, c: nat, min: real)
    requires InitiallyClosestUpTo(closest, upper, lower, n) && n < |closest| && InitiallyClosest(c, min, lower[n])
    ensures InitiallyClosestUpTo(closest[n := c], upper[n := min], lower, n + 1)
  {
  }

  lemma InitiallySound(d: Metric, samples: seq<Vector>, centers: seq<Vector>, closest: seq<nat>, upper: seq<real>,
                       lower: seq<seq<real>>)
    requires AllRows(d, samples, centers, lower) && InitiallyClosestUpTo(closest, upper, lower, |samples|)
    requires |closest| == |samples|
    ensures AllSound(d, samples, centers, closest, upper, lower) && Exact(d, samples, centers, closest, upper)
    ensures AllNearest(d, samples, centers, closest)
  {
    forall j | 0 <= j < |samples|
      ensures BoundsSound(d, samples[j], centers, closest[j], upper[j], lower[j])
      ensures Nearest(d, samples[j], centers, closest[j]) && upper[j] == d(samples[j], centers[closest[j]])
    {
      assert InitiallyClosest(closest[j], upper[j], lower[j]) && RowUpTo(d, samples[j], centers, lower[j], |centers|);
    }
  }

  /** Every cluster has a sample. */
  ghost predicate NoneEmpty(closest: seq<nat>, numCenters: nat) {
    forall k | 0 <= k < numCenters :: ClusterSize(closest, k) > 0
  }

  lemma SameClustersSameCenters(samples: seq<Vector>, closest: seq<nat>, a: seq<Vector>, b: seq<Vector>,
                                norm: Vector -> Vector, dim: nat)
    requires AllDim(samples, dim) && |closest| == |samples| && |a| == |b|
    requires AreMeans(samples, closest, a, norm, dim) && AreMeans(samples, closest, b, norm, dim) &&
             NoneEmpty(closest, |a|)
    ensures a == b
  {
  }

  // The whole run against Lloyd's algorithm

  /** What an iteration starts from, and the assignment it makes. */
  datatype Pass = Pass(centers: seq<Vector>, clusters: seq<nat>)

  /**
   Each pass assigns every sample to a nearest centre, from the second one on by moving samples to
   strictly nearer centres only, and the next centres are the means of its clusters.
   */
  ghost predicate IsLloydRun(d: Metric, samples: seq<Vector>, norm: Vector -> Vector, dim: nat, passes: seq<Pass>,
                             centers: seq<Vector>)
    requires AllDim(samples, dim)
  {
    forall i {:trigger IsPass(d, samples, norm, dim, passes, centers, i)} | 0 <= i < |passes| ::
      IsPass(d, samples, norm, dim, passes, centers, i)
  }

  ghost predicate IsPass(d: Metric, samples: seq<Vector>, norm: Vector -> Vector, dim: nat, passes: seq<Pass>,
                         centers: seq<Vector>, i: nat)
    requires AllDim(samples, dim) && i < |passes|
  {
    && AllNearest(d, samples, passes[i].centers, passes[i].clusters)
    && AreMeans(samples, passes[i].clusters, if i + 1 < |passes| then passes[i + 1].centers else centers, norm, dim)
    && (i > 0 ==> OnlyNearer(d, samples, passes[i].centers, passes[i - 1].clusters, passes[i].clusters))
  }

  /** Pass i moves no sample. */
  ghost predicate Settled(passes: seq<Pass>, i: nat)
    requires 0 < i < |passes|
  {
    passes[i].clusters == passes[i - 1].clusters
  }

  /** The run stops exactly after the first pass, other than the very first, that moves no sample. */
  ghost predicate StopsWhenSettled(passes: seq<Pass>, stopped: bool) {
    forall i {:trigger Settled(passes, i)} | 0 < i < |passes| :: Settled(passes, i) <==> stopped && i == |passes| - 1
  }

  lemma OneMorePass(d: Metric, samples: seq<Vector>, norm: Vector -> Vector, dim: nat, passes: seq<Pass>,
                    centers: seq<Vector>, clusters: seq<nat>, newCenters: seq<Vector>)
    requires AllDim(samples, dim) && |clusters| == |samples| && IsLloydRun(d, samples, norm, dim, passes, centers)
    requires AllNearest(d, samples, centers, clusters) && AreMeans(samples, clusters, newCenters, norm, dim)
    requires passes != [] ==> OnlyNearer(d, samples, centers, passes[|passes| - 1].clusters, clusters)
    ensures IsLloydRun(d, samples, norm, dim, passes + [Pass(centers, clusters)], newCenters)
  {
    var passes' := passes + [Pass(centers, clusters)];
    forall i | 0 <= i < |passes'|
      ensures IsPass(d, samples, norm, dim, passes', newCenters, i)
    {
      if i < |passes| { assert IsPass(d, samples, norm, dim, passes, centers, i); }
    }
  }

  lemma OneMoreSettled(passes: seq<Pass>, pass: Pass, stop: bool)
    requires StopsWhenSettled(passes, false)
    requires stop <==> passes != [] && pass.clusters == passes[|passes| - 1].clusters
    ensures StopsWhenSettled(passes + [pass], stop)
  {
    forall i | 0 < i < |passes| + 1
      ensures Settled(passes + [pass], i) <==> stop && i == |passes|
    {
      assert i < |passes| ==> Settled(passes + [pass], i) == Settled(passes, i);
    }
  }

  /**
   Between two iterations: bounds are sound, centres are means, and stopping leaves every sample with a
   nearest centre.
   */
  ghost predicate Iterating(d: Metric, samples: seq<Vector>, numCenters: nat, norm: Vector -> Vector, dim: nat,
                            centers: seq<Vector>, closest: seq<nat>, upper: seq<real>, lower: seq<seq<real>>,
                            iteration: nat, stopped: bool)
    requires AllDim(samples, dim)
  {
    && AllDim(centers, dim) && |centers| == numCenters && |closest| == |upper| == |lower| == |samples|
    && AllSound(d, samples, centers, closest, upper, lower)
    && (iteration == 0 ==> Exact(d, samples, centers, closest, upper) && !stopped)
    && (iteration > 0 ==> AreMeans(samples, closest, centers, norm, dim))
    && (stopped && NoneEmpty(closest, numCenters) ==> AllNearest(d, samples, centers, closest))
  }

  /** One iteration: steps 1 to 7 of the algorithm. */
  method Iterate(d: Metric, samples: seq<Vector>, numCenters: nat, norm: Vector -> Vector, dim: nat,
                 centers: seq<Vector>, closest: array<nat>, upper: array<real>, lower: array<seq<real>>, iteration: nat)
    returns (newCenters: seq<Vector>, stop: bool)
    requires IsMetric(d, dim) && AllDim(samples, dim) && KeepsDim(norm, dim) && numCenters > 0
    requires Iterating(d, samples, numCenters, norm, dim, centers, closest[..], upper[..], lower[..], iteration, false)
    modifies closest, upper, lower
    ensures Iterating(d, samples, numCenters, norm, dim, newCenters, closest[..], upper[..], lower[..], iteration + 1,
                      stop)
    ensures AllNearest(d, samples, centers, closest[..])
    ensures OnlyNearer(d, samples, centers, old(closest[..]), closest[..])
    ensures stop <==> iteration != 0 && closest[..] == old(closest[..])
  {
    var changes := AssignSamples(d, dim, samples, centers, iteration != 0, closest, upper, lower);
    ghost var clusters := closest[..];
    AssignedInRange(d, samples, centers, closest[..], upper[..], lower[..]);
    newCenters := ComputeNewCenters(samples, closest[..], numCenters, norm, dim);
    stop := changes == 0 && iteration != 0;
    if stop && NoneEmpty(closest[..], numCenters) {
      SameClustersSameCenters(samples, closest[..], centers, newCenters, norm, dim);
    }
    MoveBounds(d, dim, samples, centers, newCenters, closest, upper, lower);
    assert closest[..] == clusters;
  }

  /**
   Whatever was skipped, the run is one of Lloyd's algorithm. Stopping without a change leaves a
   fixpoint: means as centres, and samples with a nearest one.
   */
  method Elkan(d: Metric, samples: seq<Vector>, numCenters: nat, norm: Vector -> Vector, dim: nat)
    returns (centers: seq<Vector>, clusters: seq<nat>, stopped: bool, iteration: nat, ghost passes: seq<Pass>)
    requires IsMetric(d, dim) && AllDim(samples, dim) && KeepsDim(norm, dim) && FiniteDistances(d, samples)
    requires samples != [] && numCenters > 0
    ensures |centers| == numCenters && |clusters| == |samples| && AreMeans(samples, clusters, centers, norm, dim)
    ensures stopped || iteration == 500
    ensures stopped && NoneEmpty(clusters, numCenters) ==> AllNearest(d, samples, centers, clusters)
    ensures |passes| == iteration > 0 && passes[iteration - 1].clusters == clusters
    ensures IsLloydRun(d, samples, norm, dim, passes, centers) && StopsWhenSettled(passes, stopped)
    ensures |passes[0].centers| == numCenters && forall k | 0 <= k < numCenters :: passes[0].centers[k] in samples
  {
    var closest := new nat[|samples|](_ => 0);
    var upper := new real[|samples|](_ => 0.0);
    var lower := new seq<real>[|samples|](_ => []);
    centers := InitCenters(d, samples, numCenters, lower);
    ghost var first := centers;
    AssignInitial(d, samples, centers, closest, upper, lower);
    stopped := false;
    iteration := 0;
    passes := [];
    while iteration < 500 && !stopped
      invariant iteration <= 500
      invariant Iterating(d, samples, numCenters, norm, dim, centers, closest[..], upper[..], lower[..], iteration,
                          stopped)
      invariant |passes| == iteration && (if iteration == 0 then centers else passes[0].centers) == first
      invariant iteration > 0 ==> passes[iteration - 1].clusters == closest[..]
      invariant IsLloydRun(d, samples, norm, dim, passes, centers) && StopsWhenSettled(passes, stopped)
      decreases 500 - iteration
    {
      ghost var last := centers;
      centers, stopped := Iterate(d, samples, numCenters, norm, dim, centers, closest, upper, lower, iteration);
      OneMorePass(d, samples, norm, dim, passes, last, closest[..], centers);
      OneMoreSettled(passes, Pass(last, closest[..]), stopped);
      passes := passes + [Pass(last, closest[..])];
      iteration := iteration + 1;
    }
    clusters := closest[..];
  }

  lemma AssignedInRange(d: Metric, samples: seq<Vector>, centers: seq<Vector>, closest: seq<nat>, upper: seq<real>,
                        lower: seq<seq<real>>)
    requires AllSound(d, samples, centers, closest, upper, lower)
    ensures forall j | 0 <= j < |closest| :: closest[j] < |centers|
  {
    forall j | 0 <= j < |closest| ensures closest[j] < |centers| {
      assert BoundsSound(d, samples[j], centers, closest[j], upper[j], lower[j]);
    }
  }
}
