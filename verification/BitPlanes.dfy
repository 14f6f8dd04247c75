/**
 Asymmetric scoring of one-bit codes: the quantised query as bit planes in blocks of 16 bytes
 (src/hnswutils.c:1230-1370), and the scalar scorer that counts common bits (src/tqgraph_score.c:3001-3058).

 A byte is its eight bits, lowest first; planes[block][b] is plane b of a block.
 */
module BitPlanes {
  import opened Powers
  import opened Vectors

  type Byte = s: seq<bool> | |s| == 8 witness [false, false, false, false, false, false, false, false]
  type Row = s: seq<Byte> | |s| == 16 witness seq(16, _ => ZERO)
  type Block = seq<Row>

  const ZERO: Byte := [false, false, false, false, false, false, false, false]
  const BLOCK_BYTES: nat := 16
  const BLOCK_BITS: nat := 128

  // ---------------------------------------------------------------------------------------
  // Two's complement
  // ---------------------------------------------------------------------------------------

  /** Bit b of x. */
  function BitOf(x: nat, b: nat): bool {
    if b == 0 then x % 2 == 1 else BitOf(x / 2, b - 1)
  }

  function If(c: bool, x: int): int { if c then x else 0 }

  function SumBits(x: nat, m: nat): nat {
    if m == 0 then 0 else SumBits(x, m - 1) + If(BitOf(x, m - 1), Pow2(m - 1))
  }

  lemma {:induction false} SumBitsShift(x: nat, m: nat)
    requires m > 0
    ensures SumBits(x, m) == x % 2 + 2 * SumBits(x / 2, m - 1)
  {
    if m > 1 { SumBitsShift(x, m - 1); }
  }

  lemma {:induction false} SumBitsIsValue(x: nat, m: nat)
    requires x < Pow2(m)
    ensures SumBits(x, m) == x
  {
    if m > 0 {
      SumBitsShift(x, m);
      SumBitsIsValue(x / 2, m - 1);
    }
  }

  lemma {:induction false} SumBitsBelow(x: nat, m: nat)
    ensures SumBits(x, m) < Pow2(m)
  {
    if m > 0 { SumBitsBelow(x, m - 1); }
  }

  predicate Fits(q: int, bits: nat) {
    bits > 0 && 0 < q + Pow2(bits - 1) && q < Pow2(bits - 1)
  }

  /** The low bits of q in two's complement. */
  function Unsigned(q: int, bits: nat): nat
    requires Fits(q, bits)
  {
    if q >= 0 then q else q + Pow2(bits)
  }

  /** What plane b counts for: a power of two, negative for the sign plane. */
  function Weight(bits: nat, b: nat): int {
    if b + 1 == bits then 0 - Pow2(b) else Pow2(b)
  }

  function Decoded(u: nat, bits: nat, m: nat): int {
    if m == 0 then 0 else Decoded(u, bits, m - 1) + If(BitOf(u, m - 1), Weight(bits, m - 1))
  }

  lemma {:induction false} DecodedLow(u: nat, bits: nat, m: nat)
    requires m < bits
    ensures Decoded(u, bits, m) == SumBits(u, m)
  {
    if m > 0 { DecodedLow(u, bits, m - 1); }
  }

  /** The weighted bits of a value that fits are that value. */
  lemma DecodesBack(q: int, bits: nat)
    requires Fits(q, bits)
    ensures Decoded(Unsigned(q, bits), bits, bits) == q
  {
    var u := Unsigned(q, bits);
    DecodedLow(u, bits, bits - 1);
    SumBitsIsValue(u, bits);
    SumBitsBelow(u, bits - 1);
  }

  // ---------------------------------------------------------------------------------------
  // Counting common bits in one block
  // ---------------------------------------------------------------------------------------

  /** Common bits among the first k. */
  function Common(x: Byte, y: Byte, k: nat): nat
    requires k <= 8
  {
    if k == 0 then 0 else Common(x, y, k - 1) + if x[k - 1] && y[k - 1] then 1 else 0
  }

  function CommonInRow(data: Row, plane: Row, n: nat): nat
    requires n <= 16
  {
    if n == 0 then 0 else CommonInRow(data, plane, n - 1) + Common(data[n - 1], plane[n - 1], 8)
  }

  function WeightedCounts(data: Row, block: Block, bits: nat, m: nat): int
    requires m <= |block|
  {
    if m == 0 then 0
    else WeightedCounts(data, block, bits, m - 1) + Weight(bits, m - 1) * CommonInRow(data, block[m - 1], 16)
  }

  /** The weighted bits that the first m planes hold for bit k of byte i. */
  function ValueAt(block: Block, bits: nat, m: nat, i: nat, k: nat): int
    requires m <= |block| && i < 16 && k < 8
  {
    if m == 0 then 0 else ValueAt(block, bits, m - 1, i, k) + If(block[m - 1][i][k], Weight(bits, m - 1))
  }

  /** The sum of those values over the set data bits of byte i below k. */
  function ByteSum(data: Row, block: Block, bits: nat, m: nat, i: nat, k: nat): int
    requires m <= |block| && i < 16 && k <= 8
  {
    if k == 0 then 0
    else ByteSum(data, block, bits, m, i, k - 1) + If(data[i][k - 1], ValueAt(block, bits, m, i, k - 1))
  }

  function BlockSum(data: Row, block: Block, bits: nat, m: nat, n: nat): int
    requires m <= |block| && n <= 16
  {
    if n == 0 then 0 else BlockSum(data, block, bits, m, n - 1) + ByteSum(data, block, bits, m, n - 1, 8)
  }

  lemma {:induction false} BytePlane(data: Row, block: Block, bits: nat, m: nat, i: nat, k: nat)
    requires m < |block| && i < 16 && k <= 8
    ensures ByteSum(data, block, bits, m + 1, i, k) == ByteSum(data, block, bits, m, i, k) +
            Weight(bits, m) * Common(data[i], block[m][i], k)
  {
    if k > 0 {
      BytePlane(data, block, bits, m, i, k - 1);
      OneMore(Weight(bits, m), Common(data[i], block[m][i], k - 1));
    }
  }

  lemma OneMore(w: int, n: int)
    ensures w * (n + 1) == w * n + w
  {
  }

  lemma {:induction false} RowPlane(data: Row, block: Block, bits: nat, m: nat, n: nat)
    requires m < |block| && n <= 16
    ensures BlockSum(data, block, bits, m + 1, n) == BlockSum(data, block, bits, m, n) +
            Weight(bits, m) * CommonInRow(data, block[m], n)
  {
    if n > 0 {
      RowPlane(data, block, bits, m, n - 1);
      BytePlane(data, block, bits, m, n - 1, 8);
      Distribute(Weight(bits, m), CommonInRow(data, block[m], n - 1), Common(data[n - 1], block[m][n - 1], 8));
    }
  }

  lemma Distribute(w: int, a: int, b: int)
    ensures w * (a + b) == w * a + w * b
  {
  }

  /** Weighted counts plane by plane are weighted bits position by position. */
  lemma {:induction false} CountsAreValues(data: Row, block: Block, bits: nat, m: nat)
    requires m <= |block|
    ensures WeightedCounts(data, block, bits, m) == BlockSum(data, block, bits, m, 16)
  {
    if m == 0 {
      NoPlanes(data, block, bits, 16);
    } else {
      CountsAreValues(data, block, bits, m - 1);
      RowPlane(data, block, bits, m - 1, 16);
    }
  }

  lemma {:induction false} NoPlanes(data: Row, block: Block, bits: nat, n: nat)
    requires n <= 16
    ensures BlockSum(data, block, bits, 0, n) == 0
  {
    if n > 0 {
      NoPlanes(data, block, bits, n - 1);
      NoPlanesInByte(data, block, bits, n - 1, 8);
    }
  }

  lemma {:induction false} NoPlanesInByte(data: Row, block: Block, bits: nat, i: nat, k: nat)
    requires i < 16 && k <= 8
    ensures ByteSum(data, block, bits, 0, i, k) == 0
  {
    if k > 0 { NoPlanesInByte(data, block, bits, i, k - 1); }
  }

  // ---------------------------------------------------------------------------------------
  // Encoding
  // ---------------------------------------------------------------------------------------

  /** The dense position of bit k of byte i of a block. */
  function Position(blk: nat, i: nat, k: nat): nat {
    blk * BLOCK_BITS + i * 8 + k
  }

  /** What bit k of byte i of plane b of a block should be, once the first n values are encoded. */
  predicate PlaneBit(q: seq<int>, bits: nat, n: nat, blk: nat, b: nat, i: nat, k: nat)
    requires forall p | 0 <= p < |q| :: Fits(q[p], bits)
  {
    var p := Position(blk, i, k);
    p < n && p < |q| && BitOf(Unsigned(q[p], bits), b)
  }

  ghost predicate BlockEncodes(block: Block, q: seq<int>, bits: nat, n: nat, blk: nat)
    requires forall p | 0 <= p < |q| :: Fits(q[p], bits)
  {
    && |block| == bits
    && forall b, i, k | 0 <= b < bits && 0 <= i < 16 && 0 <= k < 8 ::
       block[b][i][k] == PlaneBit(q, bits, n, blk, b, i, k)
  }

  ghost predicate Encodes(planes: seq<Block>, q: seq<int>, bits: nat, n: nat)
    requires forall p | 0 <= p < |q| :: Fits(q[p], bits)
  {
    forall blk | 0 <= blk < |planes| :: BlockEncodes(planes[blk], q, bits, n, blk)
  }

  function SetBit(row: Row, i: nat, k: nat, v: bool): Row
    requires i < 16 && k < 8
  {
    var byte: Byte := row[i][k := row[i][k] || v];
    row[i := byte]
  }

  /** Sets the bits of one value in all planes of its block. */
  method EncodeValue(block: Block, bits: nat, u: nat, byte: nat, bit: nat) returns (r: Block)
    requires |block| == bits && byte < 16 && bit < 8
    ensures |r| == bits
    ensures forall b, i, k | 0 <= b < bits && 0 <= i < 16 && 0 <= k < 8 ::
              r[b][i][k] == (block[b][i][k] || (i == byte && k == bit && BitOf(u, b)))
  {
    r := block;
    for b := 0 to bits
      invariant |r| == bits && forall c | b <= c < bits :: r[c] == block[c]
      invariant forall c, i, k | 0 <= c < b && 0 <= i < 16 && 0 <= k < 8 ::
                  r[c][i][k] == (block[c][i][k] || (i == byte && k == bit && BitOf(u, c)))
    {
      r := r[b := SetBit(r[b], byte, bit, BitOf(u, b))];
    }
  }

  lemma EncodedOneMore(planes: seq<Block>, q: seq<int>, bits: nat, n: nat, block: Block)
    requires (forall p | 0 <= p < |q| :: Fits(q[p], bits)) && n < |q| && n / BLOCK_BITS < |planes|
    requires Encodes(planes, q, bits, n) && |block| == bits
    requires forall b, i, k | 0 <= b < bits && 0 <= i < 16 && 0 <= k < 8 ::
               block[b][i][k] == (planes[n / BLOCK_BITS][b][i][k] ||
                 (i == n % BLOCK_BITS / 8 && k == n % 8 && BitOf(Unsigned(q[n], bits), b)))
    ensures Encodes(planes[n / BLOCK_BITS := block], q, bits, n + 1)
  {
    var r := planes[n / BLOCK_BITS := block];
    forall blk | 0 <= blk < |r| ensures BlockEncodes(r[blk], q, bits, n + 1, blk) {
      assert BlockEncodes(planes[blk], q, bits, n, blk);
      forall b, i, k | 0 <= b < bits && 0 <= i < 16 && 0 <= k < 8
        ensures r[blk][b][i][k] == PlaneBit(q, bits, n + 1, blk, b, i, k)
      {
        assert planes[blk][b][i][k] == PlaneBit(q, bits, n, blk, b, i, k);
        PositionIs(n, blk, i, k);
      }
    }
  }

  lemma PositionIs(n: nat, blk: nat, i: nat, k: nat)
    requires i < 16 && k < 8
    ensures Position(blk, i, k) == n <==> blk == n / BLOCK_BITS && i == n % BLOCK_BITS / 8 && k == n % 8
  {
  }

  function BlockCount(dim: nat): (n: nat)
    ensures dim <= 128 * n < dim + 128
  {
    (dim + BLOCK_BITS - 1) / BLOCK_BITS
  }

  /** The planes of the quantised query; padding bits stay zero. */
  method EncodePlanes(q: seq<int>, bits: nat) returns (planes: array<Block>)
    requires forall p | 0 <= p < |q| :: Fits(q[p], bits)
    ensures planes.Length == BlockCount(|q|) && Encodes(planes[..], q, bits, |q|)
  {
    var empty: Row := seq<Byte>(16, _ => ZERO);
    planes := new Block[BlockCount(|q|)](_ => seq<Row>(bits, _ => empty));
    for i := 0 to |q|
      invariant Encodes(planes[..], q, bits, i)
    {
      var blk := i / BLOCK_BITS;
      assert BlockEncodes(planes[..][blk], q, bits, i, blk);
      ghost var before := planes[..];
      var block := EncodeValue(planes[blk], bits, Unsigned(q[i], bits), i % BLOCK_BITS / 8, i % 8);
      EncodedOneMore(before, q, bits, i, block);
      planes[blk] := block;
      assert planes[..] == before[blk := block];
    }
  }

  // ---------------------------------------------------------------------------------------
  // Scoring
  // ---------------------------------------------------------------------------------------

  predicate CodeBit(code: seq<Byte>, p: nat) {
    p / 8 < |code| && code[p / 8][p % 8]
  }

  function ValueOf(q: seq<int>, p: nat): int { if p < |q| then q[p] else 0 }

  /** The sum of the query values at the set code bits below n. */
  function SetSum(code: seq<Byte>, q: seq<int>, n: nat): int {
    if n == 0 then 0 else SetSum(code, q, n - 1) + If(CodeBit(code, n - 1), ValueOf(q, n - 1))
  }

  /** The integer dot product of the code, read as plus and minus ones, with the query. */
  function SignedDot(code: seq<Byte>, q: seq<int>, n: nat): int
    requires n <= |q|
  {
    if n == 0 then 0 else SignedDot(code, q, n - 1) + if CodeBit(code, n - 1) then q[n - 1] else 0 - q[n - 1]
  }

  function Sum(q: seq<int>, n: nat): int
    requires n <= |q|
  {
    if n == 0 then 0 else Sum(q, n - 1) + q[n - 1]
  }

  lemma {:induction false} SignedDotFromSetSum(code: seq<Byte>, q: seq<int>, n: nat)
    requires n <= |q|
    ensures SignedDot(code, q, n) == 2 * SetSum(code, q, n) - Sum(q, n)
  {
    if n > 0 { SignedDotFromSetSum(code, q, n - 1); }
  }

  lemma {:induction false} NothingBeyond(code: seq<Byte>, q: seq<int>, n: nat)
    requires |q| <= n
    ensures SetSum(code, q, n) == SetSum(code, q, |q|)
    decreases n
  {
    if |q| < n { NothingBeyond(code, q, n - 1); }
  }

  /** The bytes of a block of the code, with zeros beyond its end. */
  function DataRow(code: seq<Byte>, blk: nat): (r: Row)
    ensures forall i | 0 <= i < 16 :: r[i] == if blk * 16 + i < |code| then code[blk * 16 + i] else ZERO
  {
    seq<Byte>(16, i requires 0 <= i < 16 => if blk * 16 + i < |code| then code[blk * 16 + i] else ZERO)
  }

  lemma {:induction false} ValueIsQuery(block: Block, q: seq<int>, bits: nat, blk: nat, m: nat, i: nat, k: nat)
    requires (forall p | 0 <= p < |q| :: Fits(q[p], bits)) && BlockEncodes(block, q, bits, |q|, blk) && m <= bits &&
             i < 16 && k < 8
    ensures ValueAt(block, bits, m, i, k) ==
            var p := Position(blk, i, k); if p < |q| then Decoded(Unsigned(q[p], bits), bits, m) else 0
  {
    if m > 0 {
      ValueIsQuery(block, q, bits, blk, m - 1, i, k);
      assert block[m - 1][i][k] == PlaneBit(q, bits, |q|, blk, m - 1, i, k);
    }
  }

  lemma {:induction false} ByteIsSetSum(code: seq<Byte>, block: Block, q: seq<int>, bits: nat, blk: nat, i: nat, k: nat)
    requires (forall p | 0 <= p < |q| :: Fits(q[p], bits)) && BlockEncodes(block, q, bits, |q|, blk) && i < 16 && k <= 8
    ensures SetSum(code, q, Position(blk, i, k)) ==
            SetSum(code, q, Position(blk, i, 0)) + ByteSum(DataRow(code, blk), block, bits, bits, i, k)
  {
    if k > 0 {
      ByteIsSetSum(code, block, q, bits, blk, i, k - 1);
      var p := Position(blk, i, k - 1);
      ValueIsQuery(block, q, bits, blk, bits, i, k - 1);
      if p < |q| { DecodesBack(q[p], bits); }
      assert p / 8 == blk * 16 + i && p % 8 == k - 1;
      assert CodeBit(code, p) == DataRow(code, blk)[i][k - 1];
    }
  }

  lemma {:induction false} BlockIsSetSum(code: seq<Byte>, block: Block, q: seq<int>, bits: nat, blk: nat, n: nat)
    requires (forall p | 0 <= p < |q| :: Fits(q[p], bits)) && BlockEncodes(block, q, bits, |q|, blk) && n <= 16
    ensures SetSum(code, q, Position(blk, n, 0)) ==
            SetSum(code, q, Position(blk, 0, 0)) + BlockSum(DataRow(code, blk), block, bits, bits, n)
  {
    if n > 0 {
      BlockIsSetSum(code, block, q, bits, blk, n - 1);
      ByteIsSetSum(code, block, q, bits, blk, n - 1, 8);
      assert Position(blk, n, 0) == Position(blk, n - 1, 8);
    }
  }

  method CountRow(data: Row, plane: Row) returns (pop: nat)
    ensures pop == CommonInRow(data, plane, 16)
  {
    pop := 0;
    for i := 0 to 16
      invariant pop == CommonInRow(data, plane, i)
    {
      pop := pop + Common(data[i], plane[i], 8);
    }
  }

  /** One block of the scorer: the weighted counts of all planes. */
  method ScoreBlock(data: Row, block: Block, bits: nat) returns (vDotQ: int)
    requires |block| == bits
    ensures vDotQ == WeightedCounts(data, block, bits, bits)
  {
    vDotQ := 0;
    for b := 0 to bits
      invariant vDotQ == WeightedCounts(data, block, bits, b)
    {
      var pop := CountRow(data, block[b]);
      if b == bits - 1 {
        vDotQ := vDotQ - Pow2(bits - 1) * pop;
      } else {
        vDotQ := vDotQ + Pow2(b) * pop;
      }
      Negated(Pow2(b), pop);
    }
  }

  lemma Negated(w: int, n: int)
    ensures (0 - w) * n == 0 - w * n
  {
  }

  /** TqGraphAsymBit1ScalarRawScore: popcounts of full blocks and of the zero-padded tail, then the scale. */
  method RawScore(planes: seq<Block>, code: seq<Byte>, numFullBlocks: nat, tailBytes: nat, bits: nat, sumSigned: int,
                  asymScale: real, ghost q: seq<int>)
    returns (score: real)
    requires forall p | 0 <= p < |q| :: Fits(q[p], bits)
    requires numFullBlocks == |q| / BLOCK_BITS && tailBytes == (|q| - numFullBlocks * BLOCK_BITS + 7) / 8
    requires |planes| == BlockCount(|q|) && Encodes(planes, q, bits, |q|) && sumSigned == Sum(q, |q|)
    ensures score == Times(asymScale, SignedDot(code, q, |q|) as real)
  {
    var vDotQ := 0;
    for block := 0 to numFullBlocks
      invariant vDotQ == SetSum(code, q, Position(block, 0, 0))
    {
      vDotQ := AddBlock(planes, code, block, bits, vDotQ, q);
    }
    if tailBytes > 0 {
      vDotQ := AddBlock(planes, code, numFullBlocks, bits, vDotQ, q);
      NothingBeyond(code, q, Position(numFullBlocks + 1, 0, 0));
    }
    SignedDotFromSetSum(code, q, |q|);
    var signedDot := 2 * vDotQ - sumSigned;
    score := Times(asymScale, signedDot as real);
  }

  method AddBlock(planes: seq<Block>, code: seq<Byte>, blk: nat, bits: nat, vDotQ: int, ghost q: seq<int>)
    returns (r: int)
    requires (forall p | 0 <= p < |q| :: Fits(q[p], bits)) && blk < |planes| && Encodes(planes, q, bits, |q|)
    requires vDotQ == SetSum(code, q, Position(blk, 0, 0))
    ensures r == SetSum(code, q, Position(blk + 1, 0, 0))
  {
    assert BlockEncodes(planes[blk], q, bits, |q|, blk);
    var data := DataRow(code, blk);
    r := ScoreBlock(data, planes[blk], bits);
    CountsAreValues(data, planes[blk], bits, bits);
    BlockIsSetSum(code, planes[blk], q, bits, blk, 16);
    assert Position(blk + 1, 0, 0) == Position(blk, 16, 0);
    r := vDotQ + r;
  }

  // ---------------------------------------------------------------------------------------
  // TqPrepareQueryAsymBit1
  // ---------------------------------------------------------------------------------------

  const FLT_EPSILON: real := 0.00000011920928955078125

  /** The smallest supported width that is at least the setting, if there is one. */
  function SupportedBits(bits: int): (r: nat)
    ensures (r == 8 || r == 12 || r == 16) && (bits <= r || r == 16)
    ensures (r > 8 ==> bits > 8) && (r > 12 ==> bits > 12)
  {
    if bits <= 8 then 8 else if bits <= 12 then 12 else 16
  }

  function Abs(x: real): real { if x < 0.0 then 0.0 - x else x }

  /** Halves are rounded away from zero. */
  function RoundHalfAway(x: real): int {
    if x >= 0.0 then (x + 0.5).Floor else 0 - (0.0 - x + 0.5).Floor
  }

  /** The nearest integer; of two equally near ones the one further from zero. */
  lemma RoundsToNearest(x: real, n: int)
    ensures Abs(RoundHalfAway(x) as real - x) <= Abs(n as real - x)
    ensures Abs(RoundHalfAway(x) as real - x) == Abs(n as real - x) ==> Abs(n as real) <= Abs(RoundHalfAway(x) as real)
  {
    var r := RoundHalfAway(x);
    if n > r { assert n as real >= r as real + 1.0; }
    if n < r { assert n as real <= r as real - 1.0; }
  }

  function Quantise(x: real, max: nat): int {
    var q := RoundHalfAway(x);
    if q > max then max else if q < 0 - max then 0 - max else q
  }

  /** A value within the range is off by at most a half. */
  lemma QuantisedIsNear(x: real, max: nat)
    requires Abs(x) <= max as real
    ensures -0.5 <= Quantise(x, max) as real - x <= 0.5
  {
  }

  /** The largest absolute value, or a tiny number if that is larger. */
  function Largest(values: seq<real>): (max: real)
    ensures max >= FLT_EPSILON && forall i | 0 <= i < |values| :: Abs(values[i]) <= max
    ensures max == FLT_EPSILON || exists i :: 0 <= i < |values| && Abs(values[i]) == max
  {
    if values == [] then FLT_EPSILON
    else
      var rest := Largest(values[..|values| - 1]);
      var last := Abs(values[|values| - 1]);
      assert forall i | 0 <= i < |values| - 1 :: values[i] == values[..|values| - 1][i];
      if last > rest then last else rest
  }

  method LargestAbsolute(values: seq<real>) returns (max: real)
    ensures max == Largest(values)
  {
    max := FLT_EPSILON;
    for i := 0 to |values|
      invariant max == Largest(values[..i])
    {
      assert values[..i + 1][..i] == values[..i];
      if Abs(values[i]) > max { max := Abs(values[i]); }
    }
    assert values[..|values|] == values;
  }

  lemma ScaledInRange(x: real, max: real, top: real)
    requires max > 0.0 && top > 0.0 && Abs(x) <= max
    ensures Abs(Times(x, top / max)) <= top
  {
    var s := top / max;
    assert s > 0.0 && max * s == top;
    if x >= 0.0 {
      assert x * s <= max * s;
    } else {
      assert (0.0 - x) * s <= max * s;
      assert x * s == 0.0 - (0.0 - x) * s;
    }
  }

  /** How many steps of the integer range a unit of the query is. */
  function QScale(values: seq<real>, setting: int): (scale: real)
    ensures scale > 0.0
  {
    WidthsFit(setting);
    (Pow2(SupportedBits(setting) - 1) - 1) as real / Largest(values)
  }

  /** The quantised values; max is the largest value of the width. */
  method QuantiseAll(values: seq<real>, scale: real, max: nat) returns (q: seq<int>)
    requires max > 0 && scale == max as real / Largest(values)
    ensures |q| == |values| && forall i | 0 <= i < |q| :: 0 - max <= q[i] <= max
    ensures Near(q, values, scale)
  {
    q := [];
    for i := 0 to |values|
      invariant |q| == i && forall k | 0 <= k < i :: 0 - max <= q[k] <= max
      invariant forall k | 0 <= k < i :: -0.5 <= q[k] as real - Times(values[k], scale) <= 0.5
    {
      ScaledInRange(values[i], Largest(values), max as real);
      QuantisedIsNear(Times(values[i], scale), max);
      q := q + [Quantise(Times(values[i], scale), max)];
    }
  }

  /** Each integer is within half a step of its value. */
  ghost predicate Near(q: seq<int>, values: seq<real>, scale: real) {
    |q| == |values| && forall i | 0 <= i < |q| :: -0.5 <= q[i] as real - Times(values[i], scale) <= 0.5
  }

  method SumOf(q: seq<int>) returns (sum: int)
    ensures sum == Sum(q, |q|)
  {
    sum := 0;
    for i := 0 to |q|
      invariant sum == Sum(q, i)
    {
      sum := sum + q[i];
    }
  }

  lemma WidthsFit(setting: int)
    ensures Pow2(SupportedBits(setting) - 1) > 1
  {
    Pow2Grows(1, SupportedBits(setting) - 1);
  }

  /** The quantised query, its planes, its sum and the scale of the scores. */
  method PrepareQuery(values: seq<real>, setting: int)
    returns (planes: array<Block>, bits: nat, asymScale: real, sumSigned: int, q: seq<int>)
    ensures bits == SupportedBits(setting) && |q| == |values| && forall i | 0 <= i < |q| :: Fits(q[i], bits)
    ensures Near(q, values, QScale(values, setting)) && asymScale == CENTER / QScale(values, setting)
    ensures planes.Length == BlockCount(|q|) && Encodes(planes[..], q, bits, |q|) && sumSigned == Sum(q, |q|)
  {
    bits := SupportedBits(setting);
    WidthsFit(setting);
    var max := Pow2(bits - 1) - 1;
    var largest := LargestAbsolute(values);
    var scale := max as real / largest;
    q := QuantiseAll(values, scale, max);
    sumSigned := SumOf(q);
    planes := EncodePlanes(q, bits);
    asymScale := CENTER / scale;
  }

  // ---------------------------------------------------------------------------------------
  // How good the score is
  // ---------------------------------------------------------------------------------------

  /** The centre of the set bit; the clear bit's is its negative. */
  const CENTER: real := 0.7978846

  /** The sum of the values at set bits less that of the values at clear bits. */
  function PlusMinus(code: seq<Byte>, values: seq<real>, n: nat): real
    requires n <= |values|
  {
    if n == 0 then 0.0
    else PlusMinus(code, values, n - 1) + if CodeBit(code, n - 1) then values[n - 1] else 0.0 - values[n - 1]
  }

  /** The inner product of the decoded code with the values. */
  function DecodedDot(code: seq<Byte>, values: seq<real>): real {
    Times(CENTER, PlusMinus(code, values, |values|))
  }

  lemma TimesSum(a: real, b: real, s: real)
    ensures Times(s, a + b) == Times(s, a) + Times(b, s) && Times(s, a - b) == Times(s, a) - Times(b, s)
  {
  }

  /** Each position adds at most half a step of error. */
  lemma {:induction false} DotIsNear(code: seq<Byte>, values: seq<real>, q: seq<int>, scale: real, n: nat)
    requires Near(q, values, scale) && n <= |q|
    ensures Abs(SignedDot(code, q, n) as real - Times(scale, PlusMinus(code, values, n))) <= n as real / 2.0
  {
    if n > 0 {
      DotIsNear(code, values, q, scale, n - 1);
      TimesSum(PlusMinus(code, values, n - 1), values[n - 1], scale);
    }
  }

  lemma ScaledError(asymScale: real, scale: real, dot: real, exact: real, bound: real)
    requires scale > 0.0 && asymScale == CENTER / scale && Abs(dot - Times(scale, exact)) <= bound
    ensures Abs(Times(asymScale, dot) - Times(CENTER, exact)) <= Times(asymScale, bound)
  {
    var e := dot - scale * exact;
    assert asymScale > 0.0 && asymScale * scale == CENTER;
    assert asymScale * dot == asymScale * (scale * exact) + asymScale * e;
    assert asymScale * (scale * exact) == CENTER * exact;
    assert -(asymScale * bound) <= asymScale * e <= asymScale * bound;
  }

  /** The integer range that the largest value is mapped to, for each setting. */
  lemma QScaleIs(values: seq<real>, setting: int)
    ensures Times(QScale(values, setting), Largest(values)) ==
            if setting <= 8 then 127.0 else if setting <= 12 then 2047.0 else 32767.0
  {
    assert Pow2(7) == 128 && Pow2(11) == 2048 && Pow2(15) == 32768;
    Quotient((Pow2(SupportedBits(setting) - 1) - 1) as real, Largest(values));
  }

  lemma Quotient(a: real, b: real)
    requires b > 0.0
    ensures Times(a / b, b) == a
  {
  }

  /**
   Preparing a query and scoring a code with it: the score differs from the inner product of the
   decoded code with the query by at most half a quantisation step for each dimension.
   */
  method Score(values: seq<real>, setting: int, code: seq<Byte>) returns (score: real)
    ensures Abs(score - DecodedDot(code, values)) <= Times(CENTER / QScale(values, setting), |values| as real / 2.0)
  {
    var planes, bits, asymScale, sumSigned, q := PrepareQuery(values, setting);
    var numFullBlocks := |values| / BLOCK_BITS;
    var tailBytes := (|values| - numFullBlocks * BLOCK_BITS + 7) / 8;
    score := RawScore(planes[..], code, numFullBlocks, tailBytes, bits, sumSigned, asymScale, q);
    DotIsNear(code, values, q, QScale(values, setting), |values|);
    ScaledError(asymScale, QScale(values, setting), SignedDot(code, q, |q|) as real, PlusMinus(code, values, |values|),
                |values| as real / 2.0);
  }
}
