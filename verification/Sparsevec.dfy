/**
 Sparse vectors against their dense meaning (src/sparsevec.c:102-125, 650-681, 813-856, 892-923,
 1016-1044 and 1139-1175): the comparison, the two-pointer sums and the conversion from dense vectors.
 */
module Sparsevec {
  import opened Options
  import O = Orders

  datatype SparseVector = SparseVector(dim: nat, indices: seq<nat>, values: seq<real>) {
    ghost predicate Valid() {
      && |indices| == |values|
      && (forall i | 0 <= i < |indices| :: indices[i] < dim && values[i] != 0.0)
      && (forall i, j | 0 <= i < j < |indices| :: indices[i] < indices[j])
    }

    /** Its first n elements. */
    function Head(n: nat): (r: SparseVector)
      requires n <= |indices| == |values|
      ensures |r.indices| == |r.values| == n
    {
      SparseVector(dim, indices[..n], values[..n])
    }
  }

  /** The value at a dense position. */
  function At(v: SparseVector, k: nat): real
    requires |v.indices| == |v.values|
    decreases |v.indices|
  {
    if v.indices == [] then 0.0
    else
      var n := |v.indices| - 1;
      if v.indices[n] == k then v.values[n] else At(v.Head(n), k)
  }

  function Dense(v: SparseVector): (r: seq<real>)
    requires |v.indices| == |v.values|
    ensures |r| == v.dim && forall k | 0 <= k < v.dim :: r[k] == At(v, k)
  {
    seq(v.dim, k requires 0 <= k < v.dim => At(v, k))
  }

  lemma HeadIsValid(v: SparseVector, n: nat)
    requires v.Valid() && n <= |v.indices|
    ensures v.Head(n).Valid()
  {
  }

  lemma HeadOfHead(v: SparseVector, m: nat, n: nat)
    requires m <= n <= |v.indices| == |v.values|
    ensures v.Head(n).Head(m) == v.Head(m) && v.Head(|v.indices|) == v
  {
    assert v.indices[..n][..m] == v.indices[..m] && v.values[..n][..m] == v.values[..m];
    assert v.indices[..|v.indices|] == v.indices && v.values[..|v.values|] == v.values;
  }

  /** Adding element n changes one position. */
  lemma AtNext(v: SparseVector, n: nat, k: nat)
    requires n < |v.indices| == |v.values|
    ensures At(v.Head(n + 1), k) == if k == v.indices[n] then v.values[n] else At(v.Head(n), k)
  {
    HeadOfHead(v, n, n + 1);
  }

  lemma {:induction false} AtElsewhere(v: SparseVector, k: nat)
    requires |v.indices| == |v.values| && k !in v.indices
    ensures At(v, k) == 0.0
    decreases |v.indices|
  {
    if v.indices != [] {
      var n := |v.indices| - 1;
      assert v.indices == v.indices[..n] + [v.indices[n]];
      AtElsewhere(v.Head(n), k);
    }
  }

  lemma {:induction false} AtElement(v: SparseVector, i: nat)
    requires v.Valid() && i < |v.indices|
    ensures At(v, v.indices[i]) == v.values[i]
    decreases |v.indices|
  {
    var n := |v.indices| - 1;
    if i < n {
      HeadIsValid(v, n);
      AtElement(v.Head(n), i);
    }
  }

  // ---------------------------------------------------------------------------------------
  // Comparison
  // ---------------------------------------------------------------------------------------

  /** Values before dimensions, as for dense vectors. */
  function DenseCompare(x: seq<real>, y: seq<real>): int {
    if x == [] then (if y == [] then 0 else -1)
    else if y == [] then 1
    else if x[0] < y[0] then -1
    else if x[0] > y[0] then 1
    else DenseCompare(x[1..], y[1..])
  }

  lemma {:induction false} CompareIsAntisymmetric(x: seq<real>, y: seq<real>)
    ensures DenseCompare(x, y) == -DenseCompare(y, x) && (DenseCompare(x, y) == 0 <==> x == y)
  {
    if x != [] && y != [] {
      CompareIsAntisymmetric(x[1..], y[1..]);
      assert x == [x[0]] + x[1..] && y == [y[0]] + y[1..];
    }
  }

  lemma {:induction false} CompareIsTransitive(x: seq<real>, y: seq<real>, z: seq<real>)
    requires DenseCompare(x, y) <= 0 && DenseCompare(y, z) <= 0
    ensures DenseCompare(x, z) <= 0
  {
    if x != [] && y != [] && z != [] && x[0] == y[0] == z[0] { CompareIsTransitive(x[1..], y[1..], z[1..]); }
  }

  lemma {:induction false} FirstDifference(x: seq<real>, y: seq<real>, k: nat)
    requires k < |x| && k < |y| && x[..k] == y[..k] && x[k] != y[k]
    ensures DenseCompare(x, y) == if x[k] < y[k] then -1 else 1
    decreases k
  {
    if k > 0 {
      assert x[0] == x[..k][0] && y[0] == y[..k][0];
      assert x[1..][..k - 1] == x[..k][1..] && y[1..][..k - 1] == y[..k][1..];
      FirstDifference(x[1..], y[1..], k - 1);
    }
  }

  lemma {:induction false} NoDifference(x: seq<real>, y: seq<real>, n: nat)
    requires n <= |x| && n <= |y| && (n == |x| || n == |y|) && x[..n] == y[..n]
    ensures DenseCompare(x, y) == if |x| < |y| then -1 else if |x| > |y| then 1 else 0
    decreases n
  {
    if n > 0 {
      assert x[0] == x[..n][0] && y[0] == y[..n][0];
      assert x[1..][..n - 1] == x[..n][1..] && y[1..][..n - 1] == y[..n][1..];
      NoDifference(x[1..], y[1..], n - 1);
    }
  }

  /** The first i elements of both are the same. */
  ghost predicate SameHead(a: SparseVector, b: SparseVector, i: nat) {
    i <= |a.indices| && i <= |b.indices| && a.Valid() && b.Valid() && a.indices[..i] == b.indices[..i] &&
      a.values[..i] == b.values[..i]
  }

  /** Below k, neither has elements after its first i. */
  ghost predicate NothingBelow(v: SparseVector, i: nat, k: nat) {
    forall j | i <= j < |v.indices| :: k <= v.indices[j]
  }

  lemma {:induction false} AtBelow(v: SparseVector, i: nat, k: nat, n: nat)
    requires v.Valid() && i <= n <= |v.indices| && NothingBelow(v, i, k + 1)
    ensures At(v.Head(n), k) == At(v.Head(i), k)
    decreases n
  {
    if i < n {
      AtNext(v, n - 1, k);
      AtBelow(v, i, k, n - 1);
    }
  }

  lemma SameBelow(a: SparseVector, b: SparseVector, i: nat, k: nat)
    requires SameHead(a, b, i) && NothingBelow(a, i, k) && NothingBelow(b, i, k) && k <= a.dim && k <= b.dim
    ensures Dense(a)[..k] == Dense(b)[..k]
  {
    forall p | 0 <= p < k ensures At(a, p) == At(b, p) {
      AtBelow(a, i, p, |a.indices|);
      AtBelow(b, i, p, |b.indices|);
      HeadOfHead(a, i, i);
      HeadOfHead(b, i, i);
      SameAt(a.Head(i), b.Head(i), p);
    }
  }

  lemma {:induction false} SameAt(a: SparseVector, b: SparseVector, k: nat)
    requires |a.indices| == |a.values| && a.indices == b.indices && a.values == b.values
    ensures At(a, k) == At(b, k)
    decreases |a.indices|
  {
    if a.indices != [] { SameAt(a.Head(|a.indices| - 1), b.Head(|a.indices| - 1), k); }
  }

  lemma DifferAt(a: SparseVector, b: SparseVector, i: nat, k: nat)
    requires SameHead(a, b, i) && NothingBelow(a, i, k) && NothingBelow(b, i, k) && k < a.dim && k < b.dim &&
             At(a, k) != At(b, k)
    ensures DenseCompare(Dense(a), Dense(b)) == if At(a, k) < At(b, k) then -1 else 1
  {
    SameBelow(a, b, i, k);
    FirstDifference(Dense(a), Dense(b), k);
  }

  /** v has no element at k, which lies before its element i. */
  lemma AtGap(v: SparseVector, i: nat, k: nat)
    requires v.Valid() && i <= |v.indices| && (i > 0 ==> v.indices[i - 1] < k) && (i < |v.indices| ==> k < v.indices[i])
    ensures At(v, k) == 0.0
  {
    forall j | 0 <= j < |v.indices| ensures v.indices[j] != k {
      if j < i { assert v.indices[j] <= v.indices[i - 1]; } else { assert v.indices[i] <= v.indices[j]; }
    }
    AtElsewhere(v, k);
  }

  /** The sign of the earliest element that only one vector has decides. */
  lemma EarlierElement(a: SparseVector, b: SparseVector, i: nat)
    requires SameHead(a, b, i) && i < |a.indices| && a.indices[i] < b.dim
    requires i < |b.indices| ==> a.indices[i] < b.indices[i]
    ensures DenseCompare(Dense(a), Dense(b)) == if a.values[i] < 0.0 then -1 else 1
    ensures DenseCompare(Dense(b), Dense(a)) == if a.values[i] < 0.0 then 1 else -1
  {
    LastOfHead(a, b, i);
    AtElement(a, i);
    AtGap(b, i, a.indices[i]);
    DifferAt(a, b, i, a.indices[i]);
    CompareIsAntisymmetric(Dense(a), Dense(b));
  }

  lemma SamePlace(a: SparseVector, b: SparseVector, i: nat)
    requires SameHead(a, b, i) && i < |a.indices| && i < |b.indices| && a.indices[i] == b.indices[i]
    ensures a.values[i] < b.values[i] ==> DenseCompare(Dense(a), Dense(b)) == -1
    ensures a.values[i] > b.values[i] ==> DenseCompare(Dense(a), Dense(b)) == 1
    ensures a.values[i] == b.values[i] ==> SameHead(a, b, i + 1)
  {
    LastOfHead(a, b, i);
    AtElement(a, i);
    AtElement(b, i);
    if a.values[i] != b.values[i] {
      DifferAt(a, b, i, a.indices[i]);
    } else {
      assert a.indices[..i + 1] == a.indices[..i] + [a.indices[i]] &&
             b.indices[..i + 1] == b.indices[..i] + [b.indices[i]];
      assert a.values[..i + 1] == a.values[..i] + [a.values[i]] && b.values[..i + 1] == b.values[..i] + [b.values[i]];
    }
  }

  /** Whatever one vector has more lies beyond the other's dimension. */
  lemma OnlyDimensions(a: SparseVector, b: SparseVector, i: nat, dim: nat)
    requires SameHead(a, b, i) && dim == (if a.dim < b.dim then a.dim else b.dim)
    requires (i < |a.indices| ==> b.dim <= a.indices[i]) && (i < |b.indices| ==> a.dim <= b.indices[i])
    ensures DenseCompare(Dense(a), Dense(b)) == if a.dim < b.dim then -1 else if a.dim > b.dim then 1 else 0
  {
    LastOfHead(a, b, i);
    SameBelow(a, b, i, dim);
    NoDifference(Dense(a), Dense(b), dim);
  }

  /** sparsevec_cmp_internal decides the order of the dense expansions, for all dimensions and lengths. */
  method Compare(a: SparseVector, b: SparseVector) returns (c: int)
    requires a.Valid() && b.Valid()
    ensures c == DenseCompare(Dense(a), Dense(b))
  {
    var nnz := if |a.indices| < |b.indices| then |a.indices| else |b.indices|;
    for i := 0 to nnz
      invariant SameHead(a, b, i)
    {
      if a.indices[i] < b.indices[i] {
        EarlierElement(a, b, i);
        return if a.values[i] < 0.0 then -1 else 1;
      }
      if a.indices[i] > b.indices[i] {
        EarlierElement(b, a, i);
        return if b.values[i] < 0.0 then 1 else -1;
      }
      SamePlace(a, b, i);
      if a.values[i] < b.values[i] { return -1; }
      if a.values[i] > b.values[i] { return 1; }
    }
    if |a.indices| < |b.indices| && b.indices[nnz] < a.dim {
      EarlierElement(b, a, nnz);
      return if b.values[nnz] < 0.0 then 1 else -1;
    }
    if |a.indices| > |b.indices| && a.indices[nnz] < b.dim {
      EarlierElement(a, b, nnz);
      return if a.values[nnz] < 0.0 then -1 else 1;
    }
    OnlyDimensions(a, b, nnz, if a.dim < b.dim then a.dim else b.dim);
    c := if a.dim < b.dim then -1 else if a.dim > b.dim then 1 else 0;
  }

  lemma LastOfHead(a: SparseVector, b: SparseVector, i: nat)
    requires SameHead(a, b, i)
    ensures i > 0 ==> a.indices[i - 1] == b.indices[i - 1]
    ensures i < |a.indices| ==> NothingBelow(a, i, a.indices[i])
    ensures i < |b.indices| ==> NothingBelow(b, i, b.indices[i])
  {
    if i > 0 { assert a.indices[..i][i - 1] == b.indices[..i][i - 1]; }
  }

  /** Different valid vectors have different dense expansions. */
  lemma DenseIsInjective(a: SparseVector, b: SparseVector)
    requires a.Valid() && b.Valid() && Dense(a) == Dense(b)
    ensures a == b
  {
    NoExtra(a, b);
    NoExtra(b, a);
    SameAscending(a.indices, b.indices);
    forall i | 0 <= i < |a.values| ensures a.values[i] == b.values[i] {
      AtElement(a, i);
      AtElement(b, i);
      assert Dense(a)[a.indices[i]] == Dense(b)[a.indices[i]];
    }
  }

  /** What Compare returns is a total order of the valid sparse vectors, whatever their dimensions. */
  lemma CompareIsTotalOrder(a: SparseVector, b: SparseVector, c: SparseVector)
    requires a.Valid() && b.Valid() && c.Valid()
    ensures var x, y, z := Dense(a), Dense(b), Dense(c);
            && DenseCompare(x, y) == -DenseCompare(y, x)
            && (DenseCompare(x, y) == 0 <==> a == b)
            && (DenseCompare(x, y) <= 0 && DenseCompare(y, z) <= 0 ==> DenseCompare(x, z) <= 0)
  {
    CompareIsAntisymmetric(Dense(a), Dense(b));
    if Dense(a) == Dense(b) { DenseIsInjective(a, b); }
    if DenseCompare(Dense(a), Dense(b)) <= 0 && DenseCompare(Dense(b), Dense(c)) <= 0 {
      CompareIsTransitive(Dense(a), Dense(b), Dense(c));
    }
  }

  lemma NoExtra(a: SparseVector, b: SparseVector)
    requires a.Valid() && b.Valid() && Dense(a) == Dense(b)
    ensures forall k | k in a.indices :: k in b.indices
  {
    forall k | k in a.indices ensures k in b.indices {
      var i :| 0 <= i < |a.indices| && a.indices[i] == k;
      AtElement(a, i);
      assert Dense(a)[k] == Dense(b)[k];
      if k !in b.indices { AtElsewhere(b, k); }
    }
  }

  lemma {:induction false} SameAscending(s: seq<nat>, t: seq<nat>)
    requires (forall i, j | 0 <= i < j < |s| :: s[i] < s[j]) && (forall i, j | 0 <= i < j < |t| :: t[i] < t[j])
    requires forall k :: k in s <==> k in t
    ensures s == t
  {
    O.EmptyAlike(s, t);
    if s != [] {
      var m, n := |s| - 1, |t| - 1;
      assert s[m] in t && t[n] in s;
      assert s == s[..m] + [s[m]] && t == t[..n] + [t[n]];
      assert s[m] == t[n];
      forall k ensures k in s[..m] <==> k in t[..n] {
        assert (k in s[..m] <==> k in s && k != s[m]) && (k in t[..n] <==> k in t && k != t[n]);
      }
      SameAscending(s[..m], t[..n]);
    }
  }

  // ---------------------------------------------------------------------------------------
  // Sums over all dimensions
  // ---------------------------------------------------------------------------------------

  type Term = (real, real) -> real

  /** The sum of f over the first n dense positions. */
  function DenseSum(a: SparseVector, b: SparseVector, f: Term, n: nat): real
    requires |a.indices| == |a.values| && |b.indices| == |b.values|
  {
    if n == 0 then 0.0 else DenseSum(a, b, f, n - 1) + f(At(a, n - 1), At(b, n - 1))
  }

  /** One more element of a changes the term at its position. */
  lemma {:induction false} SumNextA(a: SparseVector, b: SparseVector, f: Term, i: nat, n: nat)
    requires a.Valid() && |b.indices| == |b.values| && i < |a.indices|
    ensures DenseSum(a.Head(i + 1), b, f, n) ==
            DenseSum(a.Head(i), b, f, n)
            + if a.indices[i] < n then f(a.values[i], At(b, a.indices[i])) - f(0.0, At(b, a.indices[i])) else 0.0
  {
    if n > 0 {
      SumNextA(a, b, f, i, n - 1);
      AtNext(a, i, n - 1);
      if a.indices[i] == n - 1 { NotInHead(a, i); }
    }
  }

  lemma {:induction false} SumNextB(a: SparseVector, b: SparseVector, f: Term, j: nat, n: nat)
    requires b.Valid() && |a.indices| == |a.values| && j < |b.indices|
    ensures DenseSum(a, b.Head(j + 1), f, n) ==
            DenseSum(a, b.Head(j), f, n)
            + if b.indices[j] < n then f(At(a, b.indices[j]), b.values[j]) - f(At(a, b.indices[j]), 0.0) else 0.0
  {
    if n > 0 {
      SumNextB(a, b, f, j, n - 1);
      AtNext(b, j, n - 1);
      if b.indices[j] == n - 1 { NotInHead(b, j); }
    }
  }

  lemma NotInHead(v: SparseVector, i: nat)
    requires v.Valid() && i < |v.indices|
    ensures At(v.Head(i), v.indices[i]) == 0.0
  {
    AtElsewhere(v.Head(i), v.indices[i]);
  }

  /** The sum over the first i elements of a and the first j of b. */
  function Part(a: SparseVector, b: SparseVector, f: Term, i: nat, j: nat): real
    requires a.Valid() && b.Valid() && i <= |a.indices| && j <= |b.indices|
  {
    DenseSum(a.Head(i), b.Head(j), f, a.dim)
  }

  /** Nothing among the first n elements is at k. */
  ghost predicate Before(v: SparseVector, n: nat, k: nat) {
    n <= |v.indices| && (n > 0 ==> v.indices[n - 1] < k)
  }

  lemma BeforeIsZero(v: SparseVector, n: nat, k: nat)
    requires v.Valid() && Before(v, n, k)
    ensures At(v.Head(n), k) == 0.0
  {
    forall i | 0 <= i < n ensures v.indices[i] != k {
      if i < n - 1 { assert v.indices[i] < v.indices[n - 1]; }
    }
    AtElsewhere(v.Head(n), k);
  }

  lemma StepA(a: SparseVector, b: SparseVector, f: Term, i: nat, j: nat)
    requires a.Valid() && b.Valid() && i < |a.indices| && f(0.0, 0.0) == 0.0 && Before(b, j, a.indices[i])
    ensures Part(a, b, f, i + 1, j) == Part(a, b, f, i, j) + f(a.values[i], 0.0)
  {
    BeforeIsZero(b, j, a.indices[i]);
    SumNextA(a, b.Head(j), f, i, a.dim);
  }

  lemma StepB(a: SparseVector, b: SparseVector, f: Term, i: nat, j: nat)
    requires a.Valid() && b.Valid() && a.dim == b.dim && j < |b.indices| && f(0.0, 0.0) == 0.0 &&
             Before(a, i, b.indices[j])
    ensures Part(a, b, f, i, j + 1) == Part(a, b, f, i, j) + f(0.0, b.values[j])
  {
    BeforeIsZero(a, i, b.indices[j]);
    SumNextB(a.Head(i), b, f, j, a.dim);
  }

  lemma StepBoth(a: SparseVector, b: SparseVector, f: Term, i: nat, j: nat)
    requires a.Valid() && b.Valid() && a.dim == b.dim && i < |a.indices| && j < |b.indices| && f(0.0, 0.0) == 0.0
    requires a.indices[i] == b.indices[j]
    ensures Part(a, b, f, i + 1, j + 1) == Part(a, b, f, i, j) + f(a.values[i], b.values[j])
  {
    HeadIsValid(a, i + 1);
    NotInHead(b, j);
    SumNextA(a, b.Head(j), f, i, a.dim);
    AtNext(a, i, a.indices[i]);
    SumNextB(a.Head(i + 1), b, f, j, a.dim);
  }

  /** Element j of b comes after everything consumed so far. */
  ghost predicate Consumed(a: SparseVector, b: SparseVector, i: nat, j: nat) {
    && i <= |a.indices| && j <= |b.indices|
    && (i > 0 && j < |b.indices| ==> a.indices[i - 1] < b.indices[j])
    && (j > 0 && i < |a.indices| ==> b.indices[j - 1] < a.indices[i])
  }

  ghost predicate Summable(a: SparseVector, b: SparseVector, f: Term) {
    a.Valid() && b.Valid() && a.dim == b.dim && f(0.0, 0.0) == 0.0
  }

  /** The distance so far is that of the first i elements of a and the first j of b, and no others come before them. */
  ghost predicate Consuming(a: SparseVector, b: SparseVector, f: Term, i: nat, j: nat, distance: real)
    requires Summable(a, b, f)
  {
    Consumed(a, b, i, j) && distance == Part(a, b, f, i, j)
  }

  lemma ConsumeBoth(a: SparseVector, b: SparseVector, f: Term, i: nat, j: nat, distance: real)
    requires Summable(a, b, f) && Consuming(a, b, f, i, j, distance)
    requires i < |a.indices| && j < |b.indices| && a.indices[i] == b.indices[j]
    ensures Consuming(a, b, f, i + 1, j + 1, distance + f(a.values[i], b.values[j]))
  {
    StepBoth(a, b, f, i, j);
  }

  lemma ConsumeB(a: SparseVector, b: SparseVector, f: Term, i: nat, j: nat, distance: real)
    requires Summable(a, b, f) && Consuming(a, b, f, i, j, distance)
    requires j < |b.indices| && (i < |a.indices| ==> b.indices[j] < a.indices[i])
    ensures Consuming(a, b, f, i, j + 1, distance + f(0.0, b.values[j]))
  {
    StepB(a, b, f, i, j);
  }

  lemma ConsumeA(a: SparseVector, b: SparseVector, f: Term, i: nat, j: nat, distance: real)
    requires Summable(a, b, f) && Consuming(a, b, f, i, j, distance)
    requires i < |a.indices| && (j < |b.indices| ==> a.indices[i] < b.indices[j])
    ensures Consuming(a, b, f, i + 1, j, distance + f(a.values[i], 0.0))
  {
    StepA(a, b, f, i, j);
  }

  /** The loop of the L2 and L1 distances, which consumes every element of b exactly once. */
  method Distance(a: SparseVector, b: SparseVector, f: Term) returns (distance: real)
    requires Summable(a, b, f)
    ensures distance == DenseSum(a, b, f, a.dim)
  {
    distance := 0.0;
    var bpos := 0;
    EmptySum(a, b, f, a.dim);
    for i := 0 to |a.indices|
      invariant Consuming(a, b, f, i, bpos, distance)
    {
      distance, bpos := ConsumeUpTo(a, b, f, i, bpos, distance);
    }
    for j := bpos to |b.indices|
      invariant Consuming(a, b, f, |a.indices|, j, distance)
    {
      ConsumeB(a, b, f, |a.indices|, j, distance);
      distance := distance + f(0.0, b.values[j]);
    }
    HeadOfHead(a, 0, 0);
    HeadOfHead(b, 0, 0);
  }

  lemma {:induction false} EmptySum(a: SparseVector, b: SparseVector, f: Term, n: nat)
    requires a.Valid() && b.Valid() && f(0.0, 0.0) == 0.0
    ensures DenseSum(a.Head(0), b.Head(0), f, n) == 0.0
  {
    if n > 0 { EmptySum(a, b, f, n - 1); }
  }

  /** One pass of the outer loop: element i of a, and the elements of b up to it. */
  method ConsumeUpTo(a: SparseVector, b: SparseVector, f: Term, i: nat, bpos: nat, distance: real)
    returns (distance': real, bpos': nat)
    requires Summable(a, b, f) && i < |a.indices| && Consuming(a, b, f, i, bpos, distance)
    ensures Consuming(a, b, f, i + 1, bpos', distance')
  {
    distance', bpos' := distance, bpos;
    var ai := a.indices[i];
    var bi: int := -1;
    var j := bpos;
    while j < |b.indices|
      invariant bpos <= j == bpos' <= |b.indices| && Consuming(a, b, f, i, j, distance')
      invariant bi < ai
    {
      bi := b.indices[j];
      if ai == bi {
        ConsumeBoth(a, b, f, i, j, distance');
        distance' := distance' + f(a.values[i], b.values[j]);
      } else if ai > bi {
        ConsumeB(a, b, f, i, j, distance');
        distance' := distance' + f(0.0, b.values[j]);
      }
      if ai >= bi { bpos' := j + 1; }
      if bi >= ai { break; }
      j := j + 1;
    }
    if ai != bi {
      ConsumeA(a, b, f, i, bpos', distance');
      distance' := distance' + f(a.values[i], 0.0);
    }
  }

  function Square(x: real, y: real): real { (x - y) * (x - y) }
  function Absolute(x: real, y: real): real { if x < y then y - x else x - y }
  function Product(x: real, y: real): real { x * y }

  /** The squared distance is that of the inner product: the norms less twice the product. */
  lemma {:induction false} SquaresArePolar(a: SparseVector, b: SparseVector, n: nat)
    requires |a.indices| == |a.values| && |b.indices| == |b.values|
    ensures DenseSum(a, b, Square, n) ==
            DenseSum(a, a, Product, n) + DenseSum(b, b, Product, n) - 2.0 * DenseSum(a, b, Product, n)
  {
    if n > 0 {
      SquaresArePolar(a, b, n - 1);
      OneSquare(At(a, n - 1), At(b, n - 1));
    }
  }

  lemma OneSquare(x: real, y: real)
    ensures Square(x, y) == Product(x, x) + Product(y, y) - 2.0 * Product(x, y)
  {
  }

  /** The product is linear in each vector, and that of two unit values is one. */
  lemma ProductIsBilinear(x: real, y: real, z: real)
    ensures Product(1.0, 1.0) == 1.0 && Product(x, y) == Product(y, x)
    ensures Product(x + z, y) == Product(x, y) + Product(z, y)
  {
  }

  /** The absolute difference is the least value that is no less than the difference either way. */
  lemma AbsoluteIsLeast(x: real, y: real, z: real)
    ensures z >= Absolute(x, y) <==> z >= x - y && z >= y - x
  {
  }

  predicate Alike(a: SparseVector, b: SparseVector, k: nat)
    requires |a.indices| == |a.values| && |b.indices| == |b.values|
  {
    At(a, k) == At(b, k)
  }

  /** The sum of absolute differences is a metric on all vectors with n dimensions. */
  lemma {:induction false} AbsolutesAreMetric(a: SparseVector, b: SparseVector, c: SparseVector, n: nat)
    requires |a.indices| == |a.values| && |b.indices| == |b.values| && |c.indices| == |c.values|
    ensures DenseSum(a, b, Absolute, n) == DenseSum(b, a, Absolute, n) >= 0.0
    ensures DenseSum(a, b, Absolute, n) == 0.0 <==> forall k | 0 <= k < n :: Alike(a, b, k)
    ensures DenseSum(a, c, Absolute, n) <= DenseSum(a, b, Absolute, n) + DenseSum(b, c, Absolute, n)
  {
    if n > 0 {
      var x, y, z := At(a, n - 1), At(b, n - 1), At(c, n - 1);
      AbsolutesAreMetric(a, b, c, n - 1);
      AbsoluteIsLeast(x, z, Absolute(x, y) + Absolute(y, z));
      assert DenseSum(a, b, Absolute, n) == DenseSum(a, b, Absolute, n - 1) + Absolute(x, y);
      assert Alike(a, b, n - 1) <==> x == y;
    }
  }

  method L2SquaredDistance(a: SparseVector, b: SparseVector) returns (r: real)
    requires a.Valid() && b.Valid() && a.dim == b.dim
    ensures r == DenseSum(a, b, Square, a.dim)
  {
    r := Distance(a, b, Square);
  }

  method L1Distance(a: SparseVector, b: SparseVector) returns (r: real)
    requires a.Valid() && b.Valid() && a.dim == b.dim
    ensures r == DenseSum(a, b, Absolute, a.dim)
  {
    r := Distance(a, b, Absolute);
  }

  /** The inner product adds nothing for positions that only one vector has. */
  method InnerProduct(a: SparseVector, b: SparseVector) returns (r: real)
    requires a.Valid() && b.Valid() && a.dim == b.dim
    ensures r == DenseSum(a, b, Product, a.dim)
  {
    r := 0.0;
    var bpos := 0;
    EmptySum(a, b, Product, a.dim);
    for i := 0 to |a.indices|
      invariant Consuming(a, b, Product, i, bpos, r)
    {
      r, bpos := MultiplyUpTo(a, b, i, bpos, r);
    }
    SkipRest(a, b, bpos, r);
    HeadOfHead(a, 0, 0);
    HeadOfHead(b, 0, 0);
  }

  lemma {:induction false} SkipRest(a: SparseVector, b: SparseVector, j: nat, sum: real)
    requires Summable(a, b, Product) && Consuming(a, b, Product, |a.indices|, j, sum)
    ensures sum == Part(a, b, Product, |a.indices|, |b.indices|)
    decreases |b.indices| - j
  {
    if j < |b.indices| {
      SkipB(a, b, |a.indices|, j, sum);
      SkipRest(a, b, j + 1, sum);
    }
  }

  lemma SkipA(a: SparseVector, b: SparseVector, i: nat, j: nat, sum: real)
    requires Summable(a, b, Product) && Consuming(a, b, Product, i, j, sum)
    requires i < |a.indices| && (j < |b.indices| ==> a.indices[i] < b.indices[j])
    ensures Consuming(a, b, Product, i + 1, j, sum)
  {
    ConsumeA(a, b, Product, i, j, sum);
  }

  lemma SkipB(a: SparseVector, b: SparseVector, i: nat, j: nat, sum: real)
    requires Summable(a, b, Product) && Consuming(a, b, Product, i, j, sum)
    requires j < |b.indices| && (i < |a.indices| ==> b.indices[j] < a.indices[i])
    ensures Consuming(a, b, Product, i, j + 1, sum)
  {
    ConsumeB(a, b, Product, i, j, sum);
  }

  method MultiplyUpTo(a: SparseVector, b: SparseVector, i: nat, bpos: nat, sum: real) returns (sum': real, bpos': nat)
    requires Summable(a, b, Product) && i < |a.indices| && Consuming(a, b, Product, i, bpos, sum)
    ensures Consuming(a, b, Product, i + 1, bpos', sum')
  {
    sum', bpos' := sum, bpos;
    var ai := a.indices[i];
    ghost var found := false;
    var j := bpos;
    while j < |b.indices|
      invariant bpos <= j == bpos' <= |b.indices| && Consuming(a, b, Product, i, j, sum')
      invariant !found
    {
      var bi := b.indices[j];
      if ai == bi {
        ConsumeBoth(a, b, Product, i, j, sum');
        sum' := sum' + Product(a.values[i], b.values[j]);
        found := true;
      } else if ai > bi {
        SkipB(a, b, i, j, sum');
      }
      if ai >= bi { bpos' := j + 1; }
      if bi >= ai { break; }
      j := j + 1;
    }
    if !found { SkipA(a, b, i, bpos', sum'); }
  }

  // ---------------------------------------------------------------------------------------
  // Construction
  // ---------------------------------------------------------------------------------------

  datatype IndexError = OutOfBounds | NotAscending | Duplicate
  /** CheckIndex for element i. */
  function CheckIndex(indices: seq<int>, i: nat, dim: nat): Option<IndexError>
    requires i < |indices|
  {
    if indices[i] < 0 || indices[i] >= dim then Some(OutOfBounds)
    else if i > 0 && indices[i] < indices[i - 1] then Some(NotAscending)
    else if i > 0 && indices[i] == indices[i - 1] then Some(Duplicate)
    else None
  }

  /** Indices that pass every check are exactly the ascending ones within the dimension. */
  lemma ChecksMeanAscending(indices: seq<int>, dim: nat)
    ensures (forall i | 0 <= i < |indices| :: CheckIndex(indices, i, dim) == None) <==>
            (forall i | 0 <= i < |indices| :: 0 <= indices[i] < dim) &&
              (forall i, j | 0 <= i < j < |indices| :: indices[i] < indices[j])
  {
    if forall i | 0 <= i < |indices| :: CheckIndex(indices, i, dim) == None {
      forall i, j | 0 <= i < j < |indices| ensures indices[i] < indices[j] { StepsAscend(indices, dim, i, j); }
    } else {
      var i :| 0 <= i < |indices| && CheckIndex(indices, i, dim) != None;
      assert i > 0 && 0 <= indices[i] < dim ==> indices[i] <= indices[i - 1];
    }
    assert forall i | 0 <= i < |indices| && !(0 <= indices[i] < dim) :: CheckIndex(indices, i, dim) != None;
  }

  lemma {:induction false} StepsAscend(indices: seq<int>, dim: nat, i: nat, j: nat)
    requires i < j < |indices| && forall k | 0 <= k < |indices| :: CheckIndex(indices, k, dim) == None
    ensures indices[i] < indices[j]
    decreases j
  {
    assert CheckIndex(indices, j, dim) == None;
    if i < j - 1 { StepsAscend(indices, dim, i, j - 1); }
  }

  /** Conversion from a dense vector gives the valid vector that expands to it. */
  method FromDense(x: seq<real>) returns (v: SparseVector)
    ensures v.Valid() && Dense(v) == x
  {
    v := SparseVector(|x|, [], []);
    for i := 0 to |x|
      invariant v.dim == |x| && v.Valid() && (forall k | k in v.indices :: k < i)
      invariant forall k | 0 <= k < i :: At(v, k) == x[k]
    {
      if x[i] != 0.0 {
        ghost var before := v;
        assert forall k | 0 <= k < |v.indices| :: v.indices[k] in v.indices;
        v := SparseVector(|x|, v.indices + [i], v.values + [x[i]]);
        assert v.Head(|before.indices|) == before;
      } else {
        AtElsewhere(v, i);
      }
    }
  }
}
