/**
 The rotation that precedes quantisation (src/hnswutils.c:757-938): a normalised Hadamard transform of
 power-of-two chunks, three times followed by a seeded shuffle and another transform. It preserves every
 inner product. Arithmetic is over the reals; the parameter r stands for one over the root of two.
 */
module Rotation {
  import opened Orders
  import opened Powers
  import opened Vectors

  function Dot(x: Vector, y: Vector): real
    requires |x| == |y|
  {
    if x == [] then 0.0 else Dot(x[..|x| - 1], y[..|y| - 1]) + Times(x[|x| - 1], y[|y| - 1])
  }

  lemma {:induction false} DotOfParts(a: Vector, b: Vector, c: Vector, d: Vector)
    requires |a| == |c| && |b| == |d|
    ensures Dot(a + b, c + d) == Dot(a, c) + Dot(b, d)
  {
    if b == [] {
      assert a + b == a && c + d == c;
    } else {
      var n := |b| - 1;
      assert (a + b)[..|a + b| - 1] == a + b[..n] && (c + d)[..|c + d| - 1] == c + d[..n];
      DotOfParts(a, b[..n], c, d[..n]);
    }
  }

  lemma {:induction false} UpdateDot(x: Vector, y: Vector, i: nat, u: real, v: real)
    requires i < |x| == |y|
    ensures Dot(x[i := u], y[i := v]) == Dot(x, y) - Times(x[i], y[i]) + Times(u, v)
  {
    var n := |x| - 1;
    if i == n {
      assert x[i := u][..n] == x[..n] && y[i := v][..n] == y[..n];
    } else {
      assert x[i := u][..n] == x[..n][i := u] && y[i := v][..n] == y[..n][i := v];
      UpdateDot(x[..n], y[..n], i, u, v);
    }
  }

  function Scale(x: Vector, f: real): (r: Vector)
    ensures |r| == |x| && forall i | 0 <= i < |x| :: r[i] == Times(x[i], f)
  {
    seq(|x|, i requires 0 <= i < |x| => Times(x[i], f))
  }

  lemma ScaleOfPart(x: Vector, f: real, n: nat)
    requires n <= |x|
    ensures Scale(x, f)[..n] == Scale(x[..n], f)
  {
    forall i | 0 <= i < n ensures Scale(x, f)[..n][i] == Scale(x[..n], f)[i] {
      assert x[..n][i] == x[i];
    }
    assert Scale(x, f)[..n] == Scale(x[..n], f);
  }

  lemma {:induction false} ScaleDot(x: Vector, y: Vector, f: real)
    requires |x| == |y|
    ensures Dot(Scale(x, f), Scale(y, f)) == Times(Times(f, f), Dot(x, y))
  {
    if x != [] {
      var n := |x| - 1;
      ScaleOfPart(x, f, n);
      ScaleOfPart(y, f, n);
      ScaleDot(x[..n], y[..n], f);
      Distribute(Dot(x[..n], y[..n]), x[n], y[n], f, Dot(x, y));
    }
  }

  lemma Distribute(d: real, p: real, q: real, f: real, e: real)
    requires e == d + Times(p, q)
    ensures Times(Times(f, f), d) + Times(Times(p, f), Times(q, f)) == Times(Times(f, f), e)
  {
    assert (p * f) * (q * f) == f * f * (p * q);
    assert f * f * (d + p * q) == f * f * d + f * f * (p * q);
  }

  // ---------------------------------------------------------------------------------------
  // Butterflies
  // ---------------------------------------------------------------------------------------

  function Subtract(a: Vector, b: Vector): (r: Vector)
    requires |a| == |b|
    ensures |r| == |a|
  {
    seq(|a|, i requires 0 <= i < |a| => a[i] - b[i])
  }

  /** The sums of the lower and upper half, then their differences. */
  function Butterfly(s: Vector, h: nat): (r: Vector)
    requires |s| == 2 * h
    ensures |r| == |s|
  {
    Add(s[..h], s[h..]) + Subtract(s[..h], s[h..])
  }

  lemma {:induction false} SumsAndDifferences(a: Vector, b: Vector, c: Vector, d: Vector)
    requires |a| == |b| == |c| == |d|
    ensures Dot(Add(a, b), Add(c, d)) + Dot(Subtract(a, b), Subtract(c, d)) == 2.0 * (Dot(a, c) + Dot(b, d))
  {
    if a != [] {
      var n := |a| - 1;
      assert Add(a, b)[..n] == Add(a[..n], b[..n]) && Add(c, d)[..n] == Add(c[..n], d[..n]);
      assert Subtract(a, b)[..n] == Subtract(a[..n], b[..n]) && Subtract(c, d)[..n] == Subtract(c[..n], d[..n]);
      SumsAndDifferences(a[..n], b[..n], c[..n], d[..n]);
      Pair(a[n], b[n], c[n], d[n]);
    }
  }

  lemma Pair(a: real, b: real, c: real, d: real)
    ensures Times(a + b, c + d) + Times(a - b, c - d) == 2.0 * (Times(a, c) + Times(b, d))
  {
  }

  lemma ButterflyDoubles(x: Vector, y: Vector, h: nat)
    requires |x| == |y| == 2 * h
    ensures Dot(Butterfly(x, h), Butterfly(y, h)) == 2.0 * Dot(x, y)
  {
    var a, b, c, d := x[..h], x[h..], y[..h], y[h..];
    assert x == a + b && y == c + d;
    DotOfParts(a, b, c, d);
    DotOfParts(Add(a, b), Subtract(a, b), Add(c, d), Subtract(c, d));
    SumsAndDifferences(a, b, c, d);
  }

  /** n is made of blocks of w. */
  predicate Blocks(n: nat, w: nat) {
    n == 0 || (0 < w <= n && Blocks(n - w, w))
  }

  /** One level: a butterfly in every block of 2 * h. */
  function Level(s: Vector, h: nat): (r: Vector)
    requires Blocks(|s|, 2 * h)
    ensures |r| == |s|
  {
    if s == [] then []
    else Level(s[..|s| - 2 * h], h) + Butterfly(s[|s| - 2 * h..], h)
  }

  lemma {:induction false} LevelDoubles(x: Vector, y: Vector, h: nat)
    requires |x| == |y| && Blocks(|x|, 2 * h)
    ensures Dot(Level(x, h), Level(y, h)) == 2.0 * Dot(x, y)
  {
    if x != [] {
      var n := |x| - 2 * h;
      assert x == x[..n] + x[n..] && y == y[..n] + y[n..];
      DotOfParts(x[..n], x[n..], y[..n], y[n..]);
      DotOfParts(Level(x[..n], h), Butterfly(x[n..], h), Level(y[..n], h), Butterfly(y[n..], h));
      LevelDoubles(x[..n], y[..n], h);
      ButterflyDoubles(x[n..], y[n..], h);
    }
  }

  /** All levels from h on. */
  function Levels(s: Vector, h: nat, j: nat, k: nat): (r: Vector)
    requires |s| == Pow2(k) && h == Pow2(j) && j <= k
    ensures |r| == |s|
    decreases k - j
  {
    if j == k then s
    else
      PowerBlocks(j + 1, k);
      Levels(Level(s, h), 2 * h, j + 1, k)
  }

  lemma {:induction false} PowerBlocks(j: nat, k: nat)
    requires j <= k
    ensures Blocks(Pow2(k), Pow2(j))
    decreases k
  {
    if j < k {
      PowerBlocks(j, k - 1);
      BlocksAdd(Pow2(k - 1), Pow2(k - 1), Pow2(j));
    }
  }

  lemma {:induction false} BlocksAdd(m: nat, n: nat, w: nat)
    requires Blocks(m, w) && Blocks(n, w)
    ensures Blocks(m + n, w)
  {
    if n > 0 { BlocksAdd(m, n - w, w); }
  }

  function Doubled(n: nat, d: real): real { if n == 0 then d else 2.0 * Doubled(n - 1, d) }

  lemma {:induction false} DoubledInside(n: nat, d: real)
    ensures Doubled(n, 2.0 * d) == 2.0 * Doubled(n, d)
  {
    if n > 0 { DoubledInside(n - 1, d); }
  }

  lemma {:induction false} DoubledTimes(n: nat, d: real)
    ensures Doubled(n, d) == Times(Doubled(n, 1.0), d)
  {
    if n > 0 { DoubledTimes(n - 1, d); }
  }

  /** Every level doubles the inner product. */
  lemma {:induction false} LevelsMultiply(x: Vector, y: Vector, h: nat, j: nat, k: nat)
    requires |x| == |y| == Pow2(k) && h == Pow2(j) && j <= k
    ensures Dot(Levels(x, h, j, k), Levels(y, h, j, k)) == Doubled(k - j, Dot(x, y))
    decreases k - j
  {
    if j < k {
      BothUnfold(x, y, h, j, k);
      LevelDoubles(x, y, h);
      LevelsMultiply(Level(x, h), Level(y, h), 2 * h, j + 1, k);
      OneMoreDoubling(k - j, Dot(x, y), Dot(Level(x, h), Level(y, h)));
    }
  }

  lemma LevelsUnfold(x: Vector, h: nat, j: nat, k: nat)
    requires |x| == Pow2(k) && h == Pow2(j) && j < k
    ensures Blocks(|x|, 2 * h) && Levels(x, h, j, k) == Levels(Level(x, h), 2 * h, j + 1, k)
  {
    PowerBlocks(j + 1, k);
  }

  lemma BothUnfold(x: Vector, y: Vector, h: nat, j: nat, k: nat)
    requires |x| == |y| == Pow2(k) && h == Pow2(j) && j < k
    ensures 2 * h == Pow2(j + 1) && Blocks(|x|, 2 * h)
    ensures Dot(Levels(x, h, j, k), Levels(y, h, j, k)) ==
            Dot(Levels(Level(x, h), 2 * h, j + 1, k), Levels(Level(y, h), 2 * h, j + 1, k))
  {
    LevelsUnfold(x, h, j, k);
    LevelsUnfold(y, h, j, k);
  }

  lemma OneMoreDoubling(n: nat, d: real, twice: real)
    requires n > 0 && twice == 2.0 * d
    ensures Doubled(n - 1, twice) == Doubled(n, d)
  {
    DoubledInside(n - 1, d);
  }

  /** One over the root of Pow2(k). */
  function InvRoot(k: nat, r: real): real {
    if k == 0 then 1.0 else Times(r, InvRoot(k - 1, r))
  }

  lemma {:induction false} InvRootSquared(k: nat, r: real)
    requires Times(r, r) == 0.5
    ensures Times(Times(InvRoot(k, r), InvRoot(k, r)), Doubled(k, 1.0)) == 1.0
  {
    if k > 0 {
      InvRootSquared(k - 1, r);
      HalfTwice(InvRoot(k - 1, r), Doubled(k - 1, 1.0), r);
    }
  }

  lemma HalfTwice(i: real, p: real, r: real)
    requires Times(Times(i, i), p) == 1.0 && Times(r, r) == 0.5
    ensures Times(Times(Times(r, i), Times(r, i)), 2.0 * p) == 1.0
  {
    assert (r * i) * (r * i) * (2.0 * p) == (r * r * 2.0) * (i * i * p);
  }

  /** The transform of one chunk of Pow2(k) values, scaled by f. */
  function Hadamard(s: Vector, k: nat, f: real): (t: Vector)
    requires |s| == Pow2(k)
    ensures |t| == |s|
  {
    Scale(Levels(s, 1, 0, k), f)
  }

  lemma HadamardPreserves(x: Vector, y: Vector, k: nat, f: real)
    requires |x| == |y| == Pow2(k) && Times(Times(f, f), Doubled(k, 1.0)) == 1.0
    ensures Dot(Hadamard(x, k, f), Hadamard(y, k, f)) == Dot(x, y)
  {
    LevelsMultiply(x, y, 1, 0, k);
    ScaleDot(Levels(x, 1, 0, k), Levels(y, 1, 0, k), f);
    DoubledTimes(k, Dot(x, y));
    Cancel(f, Doubled(k, 1.0), Dot(x, y), Dot(Levels(x, 1, 0, k), Levels(y, 1, 0, k)));
  }

  lemma Cancel(f: real, p: real, d: real, e: real)
    requires Times(Times(f, f), p) == 1.0 && e == Times(p, d)
    ensures Times(Times(f, f), e) == d
  {
    assert f * f * (p * d) == (f * f * p) * d;
  }

  // ---------------------------------------------------------------------------------------
  // Chunks
  // ---------------------------------------------------------------------------------------

  /** The exponent of the largest power of two that is at most n, from k up. */
  function ChunkExponent(n: nat, k: nat): (r: nat)
    requires Pow2(k) <= n
    ensures k <= r && Pow2(r) <= n < 2 * Pow2(r)
    decreases n - Pow2(k)
  {
    if Pow2(k) <= n / 2 then ChunkExponent(n, k + 1) else k
  }

  function Chunks(s: Vector, r: real): (t: Vector)
    ensures |t| == |s|
  {
    if s == [] then []
    else
      var k := ChunkExponent(|s|, 0);
      Hadamard(s[..Pow2(k)], k, InvRoot(k, r)) + Chunks(s[Pow2(k)..], r)
  }

  lemma {:induction false} ChunksPreserve(x: Vector, y: Vector, r: real)
    requires |x| == |y| && Times(r, r) == 0.5
    ensures Dot(Chunks(x, r), Chunks(y, r)) == Dot(x, y)
  {
    if x != [] {
      var k := ChunkExponent(|x|, 0);
      var c, f := Pow2(k), InvRoot(k, r);
      assert x == x[..c] + x[c..] && y == y[..c] + y[c..];
      DotOfParts(x[..c], x[c..], y[..c], y[c..]);
      DotOfParts(Hadamard(x[..c], k, f), Chunks(x[c..], r), Hadamard(y[..c], k, f), Chunks(y[c..], r));
      InvRootSquared(k, r);
      HadamardPreserves(x[..c], y[..c], k, f);
      ChunksPreserve(x[c..], y[c..], r);
    }
  }

  // ---------------------------------------------------------------------------------------
  // The seeded shuffle
  // ---------------------------------------------------------------------------------------

  const UINT64: nat := 0x1_0000_0000_0000_0000

  function LcgNext(state: nat): nat {
    (state * 6364136223846793005 + 1442695040888963407) % UINT64
  }

  function BoundedRand(value: nat, bound: nat): (r: nat)
    requires bound > 0
    ensures r < bound
  {
    value / 0x1_0000_0000 % bound
  }

  /** targets[0] is at most i, targets[1] at most i - 1, and so on down to position 1. */
  ghost predicate Targets(targets: seq<nat>, i: nat) {
    |targets| == i && forall n | 0 <= n < i :: targets[n] <= i - n
  }

  /** The positions that the generator picks to swap with positions i, i - 1, ..., 1. */
  function SwapTargets(i: nat, state: nat): (targets: seq<nat>)
    ensures Targets(targets, i)
  {
    if i == 0 then []
    else [BoundedRand(LcgNext(state), i + 1)] + SwapTargets(i - 1, LcgNext(state))
  }

  /** The swaps at positions i, i - 1, ..., 1. */
  function Shuffled<T>(s: seq<T>, i: nat, targets: seq<nat>): (r: seq<T>)
    requires (i < |s| || i == 0) && Targets(targets, i)
    ensures |r| == |s|
    decreases i
  {
    if i == 0 then s else Shuffled(Swapped(s, i, targets[0]), i - 1, targets[1..])
  }

  function LastIndex(n: nat): nat { if n == 0 then 0 else n - 1 }

  function Permute<T>(s: seq<T>, seed: nat): (r: seq<T>)
    ensures |r| == |s|
  {
    Shuffled(s, LastIndex(|s|), SwapTargets(LastIndex(|s|), seed))
  }

  /** The order in which a shuffle of n values takes them. */
  function Permutation(n: nat, seed: nat): (p: seq<nat>)
    ensures |p| == n
  {
    Permute(Identity(n), seed)
  }

  ghost predicate IsPermutation(p: seq<nat>) {
    && (forall i | 0 <= i < |p| :: p[i] < |p|)
    && (forall i, j | 0 <= i < j < |p| :: p[i] != p[j])
  }

  function Taken<T>(s: seq<T>, p: seq<nat>): (r: seq<T>)
    requires forall i | 0 <= i < |p| :: p[i] < |s|
    ensures |r| == |p| && forall i | 0 <= i < |p| :: r[i] == s[p[i]]
  {
    seq(|p|, i requires 0 <= i < |p| => s[p[i]])
  }

  lemma SwapTakes<T>(s: seq<T>, p: seq<nat>, i: nat, j: nat)
    requires IsPermutation(p) && |p| == |s| && i < |s| && j < |s|
    ensures IsPermutation(Swapped(p, i, j)) && Swapped(Taken(s, p), i, j) == Taken(s, Swapped(p, i, j))
  {
  }

  lemma {:induction false} ShuffleTakes<T>(s: seq<T>, p: seq<nat>, i: nat, targets: seq<nat>)
    requires IsPermutation(p) && |p| == |s| && (i < |s| || i == 0) && Targets(targets, i)
    ensures IsPermutation(Shuffled(p, i, targets))
    ensures Shuffled(Taken(s, p), i, targets) == Taken(s, Shuffled(p, i, targets))
    decreases i
  {
    if i > 0 {
      SwapTakes(s, p, i, targets[0]);
      ShuffleTakes(s, Swapped(p, i, targets[0]), i - 1, targets[1..]);
    }
  }

  /** A shuffle is one permutation for every dimension and seed, whatever the values are. */
  lemma ShuffleIsPermutation<T>(s: seq<T>, seed: nat)
    ensures IsPermutation(Permutation(|s|, seed))
    ensures Permute(s, seed) == Taken(s, Permutation(|s|, seed))
  {
    assert Taken(s, Identity(|s|)) == s;
    ShuffleTakes(s, Identity(|s|), LastIndex(|s|), SwapTargets(LastIndex(|s|), seed));
  }

  /** Different choices of targets shuffle distinct values differently, so every order can come up in one way only. */
  lemma {:induction false} ShufflesDiffer<T>(s: seq<T>, i: nat, targets: seq<nat>, others: seq<nat>)
    requires NoRepeats(s) && (i < |s| || i == 0) && Targets(targets, i) && Targets(others, i)
    requires Shuffled(s, i, targets) == Shuffled(s, i, others)
    ensures targets == others
    decreases i
  {
    if i > 0 {
      var s', s'' := Swapped(s, i, targets[0]), Swapped(s, i, others[0]);
      PlacedForGood(s', i - 1, targets[1..], i);
      PlacedForGood(s'', i - 1, others[1..], i);
      assert s[targets[0]] == s'[i] == s''[i] == s[others[0]];
      ShufflesDiffer(s', i - 1, targets[1..], others[1..]);
      assert targets == [targets[0]] + targets[1..] && others == [others[0]] + others[1..];
    }
  }

  /** Positions above i keep their values. */
  lemma {:induction false} PlacedForGood<T>(s: seq<T>, i: nat, targets: seq<nat>, n: nat)
    requires (i < |s| || i == 0) && Targets(targets, i) && i < n < |s|
    ensures Shuffled(s, i, targets)[n] == s[n]
    decreases i
  {
    if i > 0 { PlacedForGood(Swapped(s, i, targets[0]), i - 1, targets[1..], n); }
  }

  /** The state before a step of the generator. */
  function LcgBack(state: nat): nat {
    (state + UINT64 - 1442695040888963407) * 13877824140714322085 % UINT64
  }

  /** No two states lead to the same next one. */
  lemma StepsBack(state: nat)
    requires state < UINT64
    ensures LcgBack(LcgNext(state)) == state
  {
    var q := (state * 6364136223846793005 + 1442695040888963407) / UINT64;
    var k := state * 4787856489426250814 + 13877824140714322085 - q * 13877824140714322085;
    assert (LcgNext(state) + UINT64 - 1442695040888963407) * 13877824140714322085 == state + k * UINT64;
    Residue(state, k);
  }

  lemma Residue(state: nat, k: int)
    requires state < UINT64
    ensures (state + k * UINT64) % UINT64 == state
  {
  }

  lemma SwapDot(x: Vector, y: Vector, i: nat, j: nat)
    requires i < |x| == |y| && j < |x|
    ensures Dot(Swapped(x, i, j), Swapped(y, i, j)) == Dot(x, y)
  {
    var x', y' := x[i := x[j]], y[i := y[j]];
    UpdateDot(x, y, i, x[j], y[j]);
    assert x'[j] == x[j] && y'[j] == y[j];
    UpdateDot(x', y', j, x[i], y[i]);
  }

  lemma {:induction false} ShufflePreserves(x: Vector, y: Vector, i: nat, targets: seq<nat>)
    requires |x| == |y| && (i < |x| || i == 0) && Targets(targets, i)
    ensures Dot(Shuffled(x, i, targets), Shuffled(y, i, targets)) == Dot(x, y)
    decreases i
  {
    if i > 0 {
      SwapDot(x, y, i, targets[0]);
      ShufflePreserves(Swapped(x, i, targets[0]), Swapped(y, i, targets[0]), i - 1, targets[1..]);
    }
  }

  // ---------------------------------------------------------------------------------------
  // TqRotateVector
  // ---------------------------------------------------------------------------------------

  datatype Float = NaN | Number(value: real)

  function Clean(input: seq<Float>): (v: Vector)
    ensures |v| == |input|
  {
    seq(|input|, i requires 0 <= i < |input| => if input[i].NaN? then 0.0 else input[i].value)
  }

  const ROTATION_SEEDS: seq<nat> := [654605292835415893, 8636605637963351413, 1775280196666917949]

  /** The shuffles and transforms for the first n seeds. */
  function Rounds(v: Vector, n: nat, r: real): (t: Vector)
    requires n <= |ROTATION_SEEDS|
    ensures |t| == |v|
  {
    if n == 0 then v else Chunks(Permute(Rounds(v, n - 1, r), ROTATION_SEEDS[n - 1]), r)
  }

  function Rotated(v: Vector, r: real): (t: Vector)
    ensures |t| == |v|
  {
    Rounds(Chunks(v, r), |ROTATION_SEEDS|, r)
  }

  /** A transform, and then a shuffle and a transform for each of the three seeds. */
  lemma RotatedIs(v: Vector, r: real)
    ensures Rotated(v, r) ==
            Chunks(Permute(Chunks(Permute(Chunks(Permute(Chunks(v, r), 654605292835415893), r), 8636605637963351413),
                                  r),
                           1775280196666917949), r)
  {
    assert Rounds(Chunks(v, r), 1, r) == Chunks(Permute(Rounds(Chunks(v, r), 0, r), ROTATION_SEEDS[0]), r);
    assert Rounds(Chunks(v, r), 2, r) == Chunks(Permute(Rounds(Chunks(v, r), 1, r), ROTATION_SEEDS[1]), r);
  }

  lemma {:induction false} RoundsPreserve(x: Vector, y: Vector, n: nat, r: real)
    requires |x| == |y| && n <= |ROTATION_SEEDS| && Times(r, r) == 0.5
    ensures Dot(Rounds(x, n, r), Rounds(y, n, r)) == Dot(x, y)
  {
    if n > 0 {
      var a, b := Rounds(x, n - 1, r), Rounds(y, n - 1, r);
      RoundsPreserve(x, y, n - 1, r);
      ShufflePreserves(a, b, LastIndex(|a|), SwapTargets(LastIndex(|a|), ROTATION_SEEDS[n - 1]));
      ChunksPreserve(Permute(a, ROTATION_SEEDS[n - 1]), Permute(b, ROTATION_SEEDS[n - 1]), r);
    }
  }

  /** The rotation preserves inner products, so norms too, in every dimension. */
  lemma RotationPreserves(x: Vector, y: Vector, r: real)
    requires |x| == |y| && Times(r, r) == 0.5
    ensures Dot(Rotated(x, r), Rotated(y, r)) == Dot(x, y)
    ensures Dot(Rotated(x, r), Rotated(x, r)) == Dot(x, x)
  {
    ChunksPreserve(x, y, r);
    RoundsPreserve(Chunks(x, r), Chunks(y, r), |ROTATION_SEEDS|, r);
    ChunksPreserve(x, x, r);
    RoundsPreserve(Chunks(x, r), Chunks(x, r), |ROTATION_SEEDS|, r);
  }

  // ---------------------------------------------------------------------------------------
  // The code, in place
  // ---------------------------------------------------------------------------------------

  /** t is s with the part that starts at index at replaced. */
  ghost predicate Replaced(s: Vector, t: Vector, at: nat, part: Vector) {
    && |t| == |s| && at + |part| <= |s|
    && t[..at] == s[..at] && t[at..at + |part|] == part && t[at + |part|..] == s[at + |part|..]
  }

  lemma ReplacedNext(s: Vector, t: Vector, u: Vector, at: nat, a: Vector, b: Vector)
    requires Replaced(s, t, at, a) && Replaced(t, u, at + |a|, b)
    ensures Replaced(s, u, at, a + b)
  {
    var m, n := at + |a|, at + |a| + |b|;
    assert u[..at] == u[..m][..at] && t[..at] == t[..m][..at];
    assert u[at..m] == u[..m][at..] && t[at..m] == t[..m][at..];
    assert u[at..n] == u[at..m] + u[m..n];
    assert t[n..] == t[m..][|b|..] && s[n..] == s[m..][|b|..];
  }

  lemma ReplacedAgain(s: Vector, t: Vector, u: Vector, at: nat, a: Vector, b: Vector)
    requires Replaced(s, t, at, a) && Replaced(t, u, at, b) && |a| == |b|
    ensures Replaced(s, u, at, b)
  {
  }

  /** TqHadamardBlockScalar. */
  method HadamardBlock(values: array<real>, at: nat, h: nat, ghost block: Vector)
    requires at + 2 * h <= values.Length && block == values[..][at..at + 2 * h]
    modifies values
    ensures Replaced(old(values[..]), values[..], at, Butterfly(block, h))
  {
    ghost var s := values[..];
    for j := 0 to h
      invariant Half(s, values[..], at, h, j)
    {
      ghost var t := values[..];
      var a, b := values[at + j], values[at + j + h];
      assert a == t[at + j] == s[at + j] && b == t[at + j + h] == s[at + j + h];
      values[at + j] := a + b;
      values[at + j + h] := a - b;
      assert values[..] == t[at + j := a + b][at + j + h := a - b];
    }
    BlockIsButterfly(s, at, h, values[..]);
  }

  /** The first j pairs of a block have been replaced. */
  ghost predicate Half(s: Vector, t: Vector, at: nat, h: nat, j: nat) {
    && |t| == |s| && at + 2 * h <= |s| && j <= h
    && forall i {:trigger t[i]} | 0 <= i < |t| :: t[i] == HalfAt(s, at, h, j, i)
  }

  function HalfAt(s: Vector, at: nat, h: nat, j: nat, i: nat): real
    requires at + 2 * h <= |s| && j <= h && i < |s|
  {
    if at <= i < at + j then s[i] + s[i + h]
    else if at + h <= i < at + h + j then s[i - h] - s[i]
    else s[i]
  }

  lemma BlockIsButterfly(s: Vector, at: nat, h: nat, t: Vector)
    requires Half(s, t, at, h, h)
    ensures Replaced(s, t, at, Butterfly(s[at..at + 2 * h], h))
  {
    var b := s[at..at + 2 * h];
    forall i | 0 <= i < h ensures t[at + i] == Butterfly(b, h)[i] {
      assert b[..h][i] == s[at + i] && b[h..][i] == s[at + i + h];
    }
    forall i | h <= i < 2 * h ensures t[at + i] == Butterfly(b, h)[i] {
      assert b[..h][i - h] == s[at + i - h] && b[h..][i - h] == s[at + i];
    }
    assert t[at..at + 2 * h] == Butterfly(b, h);
  }

  /** The blocks of one level of a chunk. */
  method LevelPass(values: array<real>, at: nat, n: nat, h: nat, ghost chunk: Vector)
    requires at + n <= values.Length && |chunk| == n && chunk == values[..][at..at + n] && Blocks(n, 2 * h)
    modifies values
    ensures Replaced(old(values[..]), values[..], at, Level(chunk, h))
  {
    ghost var s := values[..];
    ghost var done: Vector := [];
    var i := 0;
    StartLevel(s, at, chunk, h);
    while i < n
      invariant 0 <= i <= n && Blocks(n - i, 2 * h) && LevelState(s, values[..], at, i, h, chunk, done)
      decreases n - i
    {
      done := BlockPass(values, at, i, h, s, chunk, done);
      i := i + 2 * h;
    }
    LevelEnd(s, values[..], at, i, h, chunk, done);
  }

  method BlockPass(values: array<real>, at: nat, i: nat, h: nat, ghost s: Vector, ghost chunk: Vector,
                   ghost done: Vector)
    returns (ghost done': Vector)
    requires LevelState(s, values[..], at, i, h, chunk, done) && h > 0 && i + 2 * h <= |chunk|
    modifies values
    ensures LevelState(s, values[..], at, i + 2 * h, h, chunk, done')
  {
    ghost var before, block := values[..], chunk[i..i + 2 * h];
    BlockInPlace(s, before, at, i, h, chunk, done);
    HadamardBlock(values, at + i, h, block);
    LevelStep(s, before, values[..], at, i, h, chunk, done, block);
    done' := done + Butterfly(block, h);
  }

  lemma LevelEnd(s: Vector, t: Vector, at: nat, i: nat, h: nat, chunk: Vector, done: Vector)
    requires LevelState(s, t, at, i, h, chunk, done) && i >= |chunk|
    ensures Replaced(s, t, at, Level(chunk, h))
  {
    assert chunk[..i] == chunk;
  }

  /** The first i values of the chunk have gone through the level. */
  ghost predicate LevelState(s: Vector, t: Vector, at: nat, i: nat, h: nat, chunk: Vector, done: Vector) {
    && i <= |chunk| && at + |chunk| <= |s| && chunk == s[at..at + |chunk|] && Blocks(i, 2 * h)
    && |done| == i && done == Level(chunk[..i], h) && Replaced(s, t, at, done)
  }

  lemma StartLevel(s: Vector, at: nat, chunk: Vector, h: nat)
    requires at + |chunk| <= |s| && chunk == s[at..at + |chunk|]
    ensures LevelState(s, s, at, 0, h, chunk, [])
  {
    assert chunk[..0] == [];
  }

  /** The next block of the chunk is still as it was. */
  lemma BlockInPlace(s: Vector, t: Vector, at: nat, i: nat, h: nat, chunk: Vector, done: Vector)
    requires LevelState(s, t, at, i, h, chunk, done) && h > 0 && i + 2 * h <= |chunk|
    ensures |t| == |s| && at + i + 2 * h <= |s| && t[at + i..at + i + 2 * h] == chunk[i..i + 2 * h]
  {
    SameBlock(s, t, at, done, 2 * h);
    SubSlice(s, at, |chunk|, i, 2 * h);
  }

  lemma SubSlice(s: Vector, at: nat, n: nat, i: nat, w: nat)
    requires at + n <= |s| && i + w <= n
    ensures s[at..at + n][i..i + w] == s[at + i..at + i + w]
  {
    var a, b := s[at..at + n][i..i + w], s[at + i..at + i + w];
    forall k | 0 <= k < w ensures a[k] == b[k] {
      assert a[k] == s[at..at + n][i + k] == s[at + i + k];
    }
  }

  lemma LevelStep(s: Vector, before: Vector, after: Vector, at: nat, i: nat, h: nat, chunk: Vector, done: Vector,
                  block: Vector)
    requires LevelState(s, before, at, i, h, chunk, done) && h > 0 && i + 2 * h <= |chunk| &&
             block == chunk[i..i + 2 * h]
    requires Replaced(before, after, at + i, Butterfly(block, h))
    ensures LevelState(s, after, at, i + 2 * h, h, chunk, done + Butterfly(block, h))
  {
    OneMoreBlock(i, 2 * h);
    ReplacedNext(s, before, after, at, done, Butterfly(block, h));
    LevelAppends(chunk[..i], block, h);
    assert chunk[..i] + block == chunk[..i + 2 * h];
  }

  lemma SameBlock(s: Vector, t: Vector, at: nat, done: Vector, w: nat)
    requires Replaced(s, t, at, done) && at + |done| + w <= |s|
    ensures t[at + |done|..at + |done| + w] == s[at + |done|..at + |done| + w]
  {
    PrefixOf(s, at + |done|, w);
    PrefixOf(t, at + |done|, w);
  }

  lemma LevelAppends(part: Vector, block: Vector, h: nat)
    requires |block| == 2 * h > 0 && Blocks(|part|, 2 * h) && Blocks(|part| + 2 * h, 2 * h)
    ensures Level(part + block, h) == Level(part, h) + Butterfly(block, h)
  {
    var all := part + block;
    assert all[..|all| - 2 * h] == part && all[|all| - 2 * h..] == block;
  }

  lemma OneMoreBlock(n: nat, w: nat)
    requires Blocks(n, w) && w > 0
    ensures Blocks(n + w, w)
  {
  }

  /** All levels of a chunk of Pow2(k) values. */
  method LevelPasses(values: array<real>, at: nat, k: nat, ghost part: Vector)
    requires at + Pow2(k) <= values.Length && |part| == Pow2(k) && part == values[..][at..at + Pow2(k)]
    modifies values
    ensures Replaced(old(values[..]), values[..], at, Levels(part, 1, 0, k))
  {
    ghost var s, cur, done := values[..], values[..], part;
    var chunk := Pow2(k);
    var h: nat := 1;
    ghost var j := 0;
    while h < chunk
      invariant 0 <= j <= k && h == Pow2(j) && cur == values[..] && LevelsState(s, cur, at, h, j, k, part, done)
      decreases k - j
    {
      ghost var before := cur;
      PowerBlocks(j + 1, k);
      LevelPass(values, at, chunk, h, done);
      cur := values[..];
      LevelsStep(s, before, cur, at, h, j, k, part, done);
      done := Level(done, h);
      h, j := h * 2, j + 1;
    }
    Pow2Strict(j, k);
    LevelsEnd(s, cur, at, h, j, k, part, done);
  }

  /** The levels below h are done. */
  ghost predicate LevelsState(s: Vector, t: Vector, at: nat, h: nat, j: nat, k: nat, part: Vector, done: Vector) {
    && j <= k && h == Pow2(j) && |part| == |done| == Pow2(k)
    && Replaced(s, t, at, done) && Levels(done, h, j, k) == Levels(part, 1, 0, k)
  }

  lemma LevelsStep(s: Vector, before: Vector, after: Vector, at: nat, h: nat, j: nat, k: nat, part: Vector,
                   done: Vector)
    requires LevelsState(s, before, at, h, j, k, part, done) && j < k && Blocks(Pow2(k), 2 * h)
    requires Replaced(before, after, at, Level(done, h))
    ensures LevelsState(s, after, at, 2 * h, j + 1, k, part, Level(done, h))
  {
    LevelsUnfold(done, h, j, k);
    ReplacedAgain(s, before, after, at, done, Level(done, h));
  }

  lemma LevelsEnd(s: Vector, t: Vector, at: nat, h: nat, j: nat, k: nat, part: Vector, done: Vector)
    requires LevelsState(s, t, at, h, j, k, part, done) && j == k
    ensures Replaced(s, t, at, Levels(part, 1, 0, k))
  {
  }

  /** part is the chunk of t at the given place. */
  ghost predicate ChunkAt(t: Vector, at: nat, k: nat, part: Vector) {
    at + Pow2(k) <= |t| && |part| == Pow2(k) && part == t[at..at + Pow2(k)]
  }

  /** The levels and the scaling of a chunk. */
  method ChunkPass(values: array<real>, at: nat, k: nat, f: real, ghost part: Vector)
    requires ChunkAt(values[..], at, k, part)
    modifies values
    ensures Replaced(old(values[..]), values[..], at, Hadamard(part, k, f))
  {
    ghost var s := values[..];
    LevelPasses(values, at, k, part);
    ghost var t := values[..];
    ghost var cur := Levels(part, 1, 0, k);
    for i := 0 to Pow2(k)
      invariant forall x | 0 <= x < at || at + i <= x < values.Length :: values[x] == t[x]
      invariant forall x | at <= x < at + i :: values[x] == Times(t[x], f)
    {
      values[at + i] := Times(values[at + i], f);
    }
    assert Replaced(t, values[..], at, Scale(t[at..at + Pow2(k)], f));
    ReplacedAgain(s, t, values[..], at, cur, Scale(cur, f));
  }

  method FindChunk(remaining: nat) returns (chunk: nat, k: nat)
    requires remaining > 0
    ensures k == ChunkExponent(remaining, 0) && chunk == Pow2(k) <= remaining
  {
    chunk, k := 1, 0;
    while chunk <= remaining / 2
      invariant chunk == Pow2(k) <= remaining && ChunkExponent(remaining, k) == ChunkExponent(remaining, 0)
      decreases remaining - chunk
    {
      chunk, k := chunk * 2, k + 1;
    }
  }

  /** TqRotateHadamardChunks. */
  method RotateHadamardChunks(values: array<real>, r: real)
    modifies values
    ensures values[..] == Chunks(old(values[..]), r)
  {
    ghost var s, rest := values[..], values[..];
    var offset: nat, remaining: nat := 0, values.Length;
    StartChunks(s, r);
    while remaining > 0
      invariant offset + remaining == values.Length && ChunksState(s, values[..], offset, rest, r)
    {
      var chunk;
      chunk, rest := NextChunk(values, offset, remaining, r, s, rest);
      offset, remaining := offset + chunk, remaining - chunk;
    }
    EndChunks(s, values[..], offset, rest, r);
  }

  /** The largest power of two that fits is the next chunk. */
  method NextChunk(values: array<real>, offset: nat, remaining: nat, r: real, ghost s: Vector, ghost rest: Vector)
    returns (chunk: nat, ghost rest': Vector)
    requires remaining > 0 && offset + remaining == values.Length && ChunksState(s, values[..], offset, rest, r)
    modifies values
    ensures 0 < chunk <= remaining && ChunksState(s, values[..], offset + chunk, rest', r)
  {
    var k;
    chunk, k := FindChunk(remaining);
    ghost var before := values[..];
    ghost var part := rest[..chunk];
    RestRemains(s, before, offset, rest, r);
    ChunkInPlace(s, before, offset, rest, k, r);
    ChunkPass(values, offset, k, InvRoot(k, r), part);
    rest' := rest[chunk..];
    ChunksStep(s, before, values[..], offset, rest, part, k, chunk, r);
  }

  /** The values before offset are transformed; rest is what follows. */
  ghost predicate ChunksState(s: Vector, t: Vector, offset: nat, rest: Vector, r: real) {
    |t| == |s| && offset <= |s| && t[offset..] == rest && t[..offset] + Chunks(rest, r) == Chunks(s, r)
  }

  lemma StartChunks(s: Vector, r: real)
    ensures ChunksState(s, s, 0, s, r)
  {
    assert s[..0] == [] && s[0..] == s;
  }

  lemma ChunkInPlace(s: Vector, t: Vector, offset: nat, rest: Vector, k: nat, r: real)
    requires ChunksState(s, t, offset, rest, r) && Pow2(k) <= |rest|
    ensures ChunkAt(t, offset, k, rest[..Pow2(k)])
  {
    PrefixOf(t, offset, Pow2(k));
  }

  lemma RestRemains(s: Vector, t: Vector, offset: nat, rest: Vector, r: real)
    requires ChunksState(s, t, offset, rest, r)
    ensures |rest| == |t| - offset
  {
  }

  lemma ChunksStep(s: Vector, before: Vector, after: Vector, offset: nat, rest: Vector, part: Vector, k: nat, c: nat,
                   r: real)
    requires ChunksState(s, before, offset, rest, r) && rest != [] && k == ChunkExponent(|rest|, 0) && c == Pow2(k)
    requires part == rest[..c] && Replaced(before, after, offset, Hadamard(part, k, InvRoot(k, r)))
    ensures c <= |rest| && ChunksState(s, after, offset + c, rest[c..], r)
  {
    ChunksUnfold(rest, k, r);
    ChunkDone(before, after, offset, Hadamard(rest[..Pow2(k)], k, InvRoot(k, r)), Chunks(rest[Pow2(k)..], r));
  }

  lemma EndChunks(s: Vector, t: Vector, offset: nat, rest: Vector, r: real)
    requires ChunksState(s, t, offset, rest, r) && offset == |s|
    ensures t == Chunks(s, r)
  {
    assert rest == [] && t[..offset] == t;
  }

  lemma ChunksUnfold(s: Vector, k: nat, r: real)
    requires s != [] && k == ChunkExponent(|s|, 0)
    ensures Chunks(s, r) == Hadamard(s[..Pow2(k)], k, InvRoot(k, r)) + Chunks(s[Pow2(k)..], r)
  {
  }

  lemma ChunkDone(before: Vector, after: Vector, offset: nat, done: Vector, todo: Vector)
    requires Replaced(before, after, offset, done)
    ensures after[offset + |done|..] == before[offset..][|done|..]
    ensures after[..offset + |done|] + todo == before[..offset] + (done + todo)
  {
    assert after[..offset + |done|] == after[..offset] + after[offset..offset + |done|];
  }

  lemma PrefixOf(s: Vector, at: nat, c: nat)
    requires at + c <= |s|
    ensures s[at..at + c] == s[at..][..c]
  {
  }

  /** TqRotatePermute. */
  method RotatePermute(values: array<real>, seed: nat)
    modifies values
    ensures values[..] == Permute(old(values[..]), seed)
  {
    ghost var s := values[..];
    var state := seed;
    var i := LastIndex(values.Length);
    while i >= 1
      invariant 0 <= i < values.Length || i == 0
      invariant Shuffled(values[..], i, SwapTargets(i, state)) == Permute(s, seed)
    {
      var next := LcgNext(state);
      var j := BoundedRand(next, i + 1);
      FirstTarget(i, state);
      ghost var before := values[..];
      values[i], values[j] := values[j], values[i];
      assert values[..] == Swapped(before, i, j);
      state, i := next, i - 1;
    }
  }

  lemma FirstTarget(i: nat, state: nat)
    requires i > 0
    ensures SwapTargets(i, state)[0] == BoundedRand(LcgNext(state), i + 1)
    ensures SwapTargets(i, state)[1..] == SwapTargets(i - 1, LcgNext(state))
  {
  }

  method RotateRound(values: array<real>, seed: nat, r: real)
    modifies values
    ensures values[..] == Chunks(Permute(old(values[..]), seed), r)
  {
    RotatePermute(values, seed);
    RotateHadamardChunks(values, r);
  }

  method Rotate(values: array<real>, r: real)
    modifies values
    ensures values[..] == Rotated(old(values[..]), r)
  {
    ghost var s := values[..];
    RotateHadamardChunks(values, r);
    ghost var v, cur := values[..], values[..];
    for i := 0 to |ROTATION_SEEDS|
      invariant cur == values[..] && IsRound(v, cur, i, r)
    {
      RotateRound(values, ROTATION_SEEDS[i], r);
      NextRound(v, cur, values[..], i, r);
      cur := values[..];
    }
    LastRound(s, v, cur, r);
  }

  ghost predicate IsRound(v: Vector, t: Vector, i: nat, r: real) {
    i <= |ROTATION_SEEDS| && t == Rounds(v, i, r)
  }

  lemma NextRound(v: Vector, t: Vector, u: Vector, i: nat, r: real)
    requires i < |ROTATION_SEEDS| && IsRound(v, t, i, r) && u == Chunks(Permute(t, ROTATION_SEEDS[i]), r)
    ensures IsRound(v, u, i + 1, r)
  {
  }

  lemma LastRound(s: Vector, v: Vector, t: Vector, r: real)
    requires v == Chunks(s, r) && IsRound(v, t, |ROTATION_SEEDS|, r)
    ensures t == Rotated(s, r)
  {
  }

  /** TqRotateVector. */
  method RotateVector(input: seq<Float>, r: real) returns (rotated: array<real>)
    ensures rotated[..] == Rotated(Clean(input), r)
  {
    rotated := new real[|input|];
    for i := 0 to |input|
      invariant forall k | 0 <= k < i :: rotated[k] == Clean(input)[k]
    {
      rotated[i] := if input[i].NaN? then 0.0 else input[i].value;
    }
    assert rotated[..] == Clean(input);
    Rotate(rotated, r);
  }
}
