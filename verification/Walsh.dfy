/**
 What the levels of butterflies compute: the Walsh-Hadamard transform in natural order. Entry i of the
 result is the sum of all values, each with the sign given by the common bits of i and its position.
 */
module Walsh {
  import opened Powers
  import opened Vectors
  import opened Rotation

  /** i and j have an odd number of common bits. */
  predicate OddlyMany(i: nat, j: nat) {
    if i == 0 then false else (i % 2 == 1 && j % 2 == 1) != OddlyMany(i / 2, j / 2)
  }

  function Signed(odd: bool, x: real): real { if odd then 0.0 - x else x }

  /** The sum of the first n values, with those negative that have oddly many bits in common with i. */
  function SignedSum(s: Vector, i: nat, n: nat): real
    requires n <= |s|
  {
    if n == 0 then 0.0 else SignedSum(s, i, n - 1) + Signed(OddlyMany(i, n - 1), s[n - 1])
  }

  /** A higher bit counts by itself. */
  lemma {:induction false} HighBit(i: nat, j: nat, k: nat, x: nat, y: nat)
    requires i < Pow2(k) && j < Pow2(k) && x < 2 && y < 2
    ensures OddlyMany(i + x * Pow2(k), j + y * Pow2(k)) == (OddlyMany(i, j) != (x == 1 && y == 1))
    decreases k
  {
    if k == 0 {
      BothLow(x, y);
    } else {
      HighBit(i / 2, j / 2, k - 1, x, y);
      HalfOf(i, x, k);
      HalfOf(j, y, k);
      Unfold(i, j);
      Unfold(i + x * Pow2(k), j + y * Pow2(k));
    }
  }

  lemma BothLow(x: nat, y: nat)
    requires x < 2 && y < 2
    ensures OddlyMany(0 + x * 1, 0 + y * 1) == (x == 1 && y == 1) && !OddlyMany(0, 0)
  {
    if x == 1 { Unfold(1, y); }
  }

  lemma Unfold(i: nat, j: nat)
    ensures OddlyMany(i, j) == ((i % 2 == 1 && j % 2 == 1) != OddlyMany(i / 2, j / 2))
  {
  }

  lemma HalfOf(i: nat, x: nat, k: nat)
    requires k > 0 && x < 2
    ensures (i + x * Pow2(k)) / 2 == i / 2 + x * Pow2(k - 1) && (i + x * Pow2(k)) % 2 == i % 2
    ensures i < Pow2(k) ==> i / 2 < Pow2(k - 1)
  {
    assert x == 0 || x == 1;
  }

  // The sum over two halves

  lemma {:induction false} LowerHalf(s: Vector, i: nat, k: nat, x: nat, n: nat)
    requires i < Pow2(k) && x < 2 && n <= Pow2(k) <= |s|
    ensures SignedSum(s, i + x * Pow2(k), n) == SignedSum(s[..Pow2(k)], i, n)
  {
    if n > 0 {
      LowerHalf(s, i, k, x, n - 1);
      HighBit(i, n - 1, k, x, 0);
    }
  }

  lemma {:induction false} UpperHalf(s: Vector, i: nat, k: nat, x: nat, n: nat)
    requires i < Pow2(k) && x < 2 && n <= Pow2(k) && |s| == 2 * Pow2(k)
    ensures SignedSum(s, i + x * Pow2(k), Pow2(k) + n) ==
            SignedSum(s, i + x * Pow2(k), Pow2(k)) + Signed(x == 1, SignedSum(s[Pow2(k)..], i, n))
  {
    if n > 0 {
      UpperHalf(s, i, k, x, n - 1);
      HighBit(i, n - 1, k, x, 1);
      assert s[Pow2(k)..][n - 1] == s[Pow2(k) + n - 1];
    }
  }

  // The levels one half at a time

  lemma {:induction false} LevelOfParts(a: Vector, b: Vector, h: nat)
    requires Blocks(|a|, 2 * h) && Blocks(|b|, 2 * h) && Blocks(|a + b|, 2 * h)
    ensures Level(a + b, h) == Level(a, h) + Level(b, h)
    decreases |b|
  {
    if b == [] {
      assert a + b == a;
    } else {
      var first, last := b[..|b| - 2 * h], b[|b| - 2 * h..];
      SplitLater(a, b, |b| - 2 * h);
      LastBlock(b, first, last, h);
      LastBlock(a + b, a + first, last, h);
      LevelOfParts(a, first, h);
      Regroup(Level(a, h), Level(first, h), Butterfly(last, h));
    }
  }

  lemma SplitLater(a: Vector, b: Vector, n: nat)
    requires n <= |b|
    ensures b == b[..n] + b[n..] && a + b == a + b[..n] + b[n..]
  {
  }

  lemma LastBlock(s: Vector, first: Vector, last: Vector, h: nat)
    requires s == first + last && |last| == 2 * h > 0 && Blocks(|s|, 2 * h)
    ensures Blocks(|first|, 2 * h) && Level(s, h) == Level(first, h) + Butterfly(last, h)
  {
    assert s[..|s| - 2 * h] == first && s[|s| - 2 * h..] == last;
  }

  lemma Regroup(a: Vector, b: Vector, c: Vector)
    ensures a + (b + c) == a + b + c
  {
  }

  /** The levels from j up to but not including the last one of a vector of Pow2(k + 1) values. */
  lemma {:induction false} LevelsOfHalves(a: Vector, b: Vector, h: nat, j: nat, k: nat)
    requires |a| == |b| == Pow2(k) && h == Pow2(j) && j <= k
    ensures Levels(a + b, h, j, k + 1) == Butterfly(Levels(a, h, j, k) + Levels(b, h, j, k), Pow2(k))
    decreases k - j
  {
    LevelsUnfold(a + b, h, j, k + 1);
    if j == k {
      WholeLevel(a + b, h);
    } else {
      HalvesUnfold(a, b, h, j, k);
      LevelsOfHalves(Level(a, h), Level(b, h), 2 * h, j + 1, k);
    }
  }

  lemma HalvesUnfold(a: Vector, b: Vector, h: nat, j: nat, k: nat)
    requires |a| == |b| == Pow2(k) && h == Pow2(j) && j < k
    ensures Blocks(|a|, 2 * h) && Blocks(|a + b|, 2 * h) && 2 * h == Pow2(j + 1)
    ensures Levels(a, h, j, k) == Levels(Level(a, h), 2 * h, j + 1, k)
    ensures Levels(b, h, j, k) == Levels(Level(b, h), 2 * h, j + 1, k)
    ensures Level(a + b, h) == Level(a, h) + Level(b, h)
  {
    LevelsUnfold(a, h, j, k);
    LevelsUnfold(b, h, j, k);
    BlocksAdd(|a|, |b|, 2 * h);
    LevelOfParts(a, b, h);
  }

  lemma WholeLevel(s: Vector, h: nat)
    requires |s| == 2 * h && h > 0
    ensures Blocks(|s|, 2 * h) && Level(s, h) == Butterfly(s, h)
  {
    assert s[..0] == [] && s[0..] == s;
    assert Level([], h) == [];
  }

  /** The transform of one chunk before it is scaled. */
  lemma {:induction false} LevelsAreWalsh(s: Vector, k: nat, i: nat)
    requires |s| == Pow2(k) && i < Pow2(k)
    ensures Levels(s, 1, 0, k)[i] == SignedSum(s, i, Pow2(k))
    decreases k
  {
    if k == 0 {
      assert SignedSum(s, 0, 1) == SignedSum(s, 0, 0) + Signed(OddlyMany(0, 0), s[0]);
    } else {
      var h := Pow2(k - 1);
      var x, i' := if i < h then 0 else 1, if i < h then i else i - h;
      LevelsAreWalsh(s[..h], k - 1, i');
      LevelsAreWalsh(s[h..], k - 1, i');
      BothHalves(s, k - 1, x, i');
    }
  }

  lemma BothHalves(s: Vector, k: nat, x: nat, i: nat)
    requires |s| == Pow2(k + 1) && i < Pow2(k) && x < 2
    requires Levels(s[..Pow2(k)], 1, 0, k)[i] == SignedSum(s[..Pow2(k)], i, Pow2(k))
    requires Levels(s[Pow2(k)..], 1, 0, k)[i] == SignedSum(s[Pow2(k)..], i, Pow2(k))
    ensures i + x * Pow2(k) < Pow2(k + 1)
    ensures Levels(s, 1, 0, k + 1)[i + x * Pow2(k)] == SignedSum(s, i + x * Pow2(k), Pow2(k + 1))
  {
    var h := Pow2(k);
    var a, b := s[..h], s[h..];
    assert s == a + b;
    LevelsOfHalves(a, b, 1, 0, k);
    LowerHalf(s, i, k, x, h);
    UpperHalf(s, i, k, x, h);
    ButterflyAt(Levels(a, 1, 0, k), Levels(b, 1, 0, k), h, i, x);
  }

  lemma ButterflyAt(a: Vector, b: Vector, h: nat, i: nat, x: nat)
    requires |a| == |b| == h && i < h && x < 2
    ensures Butterfly(a + b, h)[i + x * h] == a[i] + Signed(x == 1, b[i])
  {
    assert (a + b)[..h] == a && (a + b)[h..] == b;
    assert x == 0 || x == 1;
  }

  /** Every entry of the transform of a chunk: the signed sum of all its values, scaled. */
  lemma HadamardIsWalsh(s: Vector, k: nat, f: real, i: nat)
    requires |s| == Pow2(k) && i < Pow2(k)
    ensures Hadamard(s, k, f)[i] == Times(SignedSum(s, i, |s|), f)
  {
    LevelsAreWalsh(s, k, i);
  }

  /** Chunk by chunk: the largest power of two that fits is transformed and the rest goes through the same. */
  lemma ChunksAreWalsh(s: Vector, k: nat, r: real)
    requires Pow2(k) <= |s| < Pow2(k + 1)
    ensures forall i | 0 <= i < Pow2(k) ::
              Chunks(s, r)[i] == Times(SignedSum(s[..Pow2(k)], i, Pow2(k)), InvRoot(k, r))
    ensures Chunks(s, r)[Pow2(k)..] == Chunks(s[Pow2(k)..], r)
  {
    OneExponent(ChunkExponent(|s|, 0), k, |s|);
    var part := s[..Pow2(k)];
    assert Chunks(s, r) == Hadamard(part, k, InvRoot(k, r)) + Chunks(s[Pow2(k)..], r);
    forall i | 0 <= i < Pow2(k)
      ensures Chunks(s, r)[i] == Times(SignedSum(part, i, Pow2(k)), InvRoot(k, r))
    {
      HadamardIsWalsh(part, k, InvRoot(k, r), i);
    }
  }

  lemma OneExponent(a: nat, b: nat, n: nat)
    requires Pow2(a) <= n < 2 * Pow2(a) && Pow2(b) <= n < 2 * Pow2(b)
    ensures a == b
  {
    if a != b { Pow2Grows(1 + if a < b then a else b, if a < b then b else a); }
  }
}
